/**
  The ELF64 wire structures (src/elf.rs; System V gABI chapter 4): each is written and parsed field by
  field, and parsing undoes writing.
 */
module ElfWire {
  import opened Words

  const EHDR_SIZE: nat := 64
  const SHDR_SIZE: nat := 64
  const SYM_SIZE: nat := 24
  const RELA_SIZE: nat := 24

  const ET_REL: nat := 1
  const SHT_NULL: nat := 0
  const SHT_PROGBITS: nat := 1
  const SHT_SYMTAB: nat := 2
  const SHT_STRTAB: nat := 3
  const SHT_RELA: nat := 4
  const SHT_NOBITS: nat := 8
  const SHN_UNDEF: nat := 0
  const SHN_LORESERVE: nat := 0xFF00
  const SHN_ABS: nat := 0xFFF1
  const SHN_COMMON: nat := 0xFFF2
  const SHN_XINDEX: nat := 0xFFFF
  const STB_LOCAL: nat := 0
  const STT_SECTION: nat := 3

  // ---- file header ---------------------------------------------------------------------

  datatype Ehdr = Ehdr(osabi: byte, abiversion: byte, etype: u16, machine: u16, entry: u64, phoff: u64, shoff: u64,
                       flags: u32, phentsize: u16, phnum: u16, shentsize: u16, shnum: u16, shstrndx: u16)

  const IDENT: bytes := [0x7F, 0x45, 0x4C, 0x46, 2, 1, 1]

  function EhdrIdent(h: Ehdr): (bs: bytes)
    ensures |bs| == 16
  {
    IDENT + [h.osabi, h.abiversion] + [0, 0, 0, 0, 0, 0, 0]
  }

  function EhdrMiddle(h: Ehdr): (bs: bytes)
    ensures |bs| == 32
  {
    (LE(h.etype, 2) + LE(h.machine, 2) + LE(1, 4)) + (LE(h.entry, 8) + LE(h.phoff, 8) + LE(h.shoff, 8))
  }

  function EhdrTail(h: Ehdr): (bs: bytes)
    ensures |bs| == 16
  {
    LE(h.flags, 4) + (LE(EHDR_SIZE, 2) + LE(h.phentsize, 2) + LE(h.phnum, 2))
    + (LE(SHDR_SIZE, 2) + LE(h.shnum, 2) + LE(h.shstrndx, 2))
  }

  function WriteEhdr(h: Ehdr): (bs: bytes)
    ensures |bs| == EHDR_SIZE
  {
    EhdrIdent(h) + EhdrMiddle(h) + EhdrTail(h)
  }

  function ParseEhdr(b: bytes): Option<Ehdr> {
    if |b| < EHDR_SIZE || b[..7] != IDENT then None
    else
      Some(Ehdr(b[7], b[8], Word16(b, 16), Word16(b, 18), Word64(b, 24), Word64(b, 32), Word64(b, 40), Word32(b, 48),
                Word16(b, 54), Word16(b, 56), Word16(b, 58), Word16(b, 60), Word16(b, 62)))
  }

  function Word16(b: bytes, at: nat): u16
    requires at + 2 <= |b|
  {
    FieldBound(b[at..at + 2]);
    WordAt(b, at, 2)
  }

  function Word32(b: bytes, at: nat): u32
    requires at + 4 <= |b|
  {
    FieldBound(b[at..at + 4]);
    WordAt(b, at, 4)
  }

  function Word64(b: bytes, at: nat): u64
    requires at + 8 <= |b|
  {
    FieldBound(b[at..at + 8]);
    WordAt(b, at, 8)
  }

  lemma FieldBound(bs: bytes)
    ensures |bs| == 2 ==> FromLE(bs) <= U16_MAX
    ensures |bs| == 4 ==> FromLE(bs) <= U32_MAX
    ensures |bs| == 8 ==> FromLE(bs) <= U64_MAX
  {
    FromLEBound(bs);
    Pow256Values();
  }

  lemma Word16At(b: bytes, at: nat, v: u16)
    requires SliceAt(b, at, LE(v, 2))
    ensures at + 2 <= |b| && Word16(b, at) == v
  {
    Pow256Values();
    WordRead(b, at, v, 2);
  }

  lemma Word32At(b: bytes, at: nat, v: u32)
    requires SliceAt(b, at, LE(v, 4))
    ensures at + 4 <= |b| && Word32(b, at) == v
  {
    Pow256Values();
    WordRead(b, at, v, 4);
  }

  lemma Word64At(b: bytes, at: nat, v: u64)
    requires SliceAt(b, at, LE(v, 8))
    ensures at + 8 <= |b| && Word64(b, at) == v
  {
    Pow256Values();
    WordRead(b, at, v, 8);
  }

  lemma ThreeParts(whole: bytes, at: nat, x: bytes, y: bytes, z: bytes)
    requires SliceAt(whole, at, x + y + z)
    ensures SliceAt(whole, at, x) && SliceAt(whole, at + |x|, y) && SliceAt(whole, at + |x| + |y|, z)
  {
    var part := x + y + z;
    assert part == [] + x + (y + z) && part == x + y + z && part == (x + y) + z + [];
    SlicePiece(part, [], x, y + z);
    SlicePiece(part, x, y, z);
    SlicePiece(part, x + y, z, []);
    SliceInside(whole, at, part, 0, x);
    SliceInside(whole, at, part, |x|, y);
    SliceInside(whole, at, part, |x| + |y|, z);
  }

  lemma TwoParts(whole: bytes, at: nat, x: bytes, y: bytes)
    requires SliceAt(whole, at, x + y)
    ensures SliceAt(whole, at, x) && SliceAt(whole, at + |x|, y)
  {
    assert x + y == x + y + [];
    ThreeParts(whole, at, x, y, []);
  }

  /** Parsing a written header gives it back; the section entry size is always written as 64. */
  lemma EhdrRoundTrip(f: bytes, h: Ehdr)
    requires SliceAt(f, 0, WriteEhdr(h)) && h.shentsize == SHDR_SIZE
    ensures ParseEhdr(f) == Some(h)
  {
    hide LE, WordAt;
    ThreeParts(f, 0, EhdrIdent(h), EhdrMiddle(h), EhdrTail(h));
    IdentFields(f, h);
    MiddleFields(f, h);
    TailFields(f, h);
  }

  lemma IdentFields(f: bytes, h: Ehdr)
    requires SliceAt(f, 0, EhdrIdent(h))
    ensures |f| >= 16 && f[..7] == IDENT && f[7] == h.osabi && f[8] == h.abiversion
  {
    var i := EhdrIdent(h);
    assert f[0..16] == i;
    assert f[..7] == f[0..16][..7] && i[..7] == IDENT;
    assert f[7] == f[0..16][7] && f[8] == f[0..16][8];
  }

  lemma MiddleFields(f: bytes, h: Ehdr)
    requires SliceAt(f, 16, EhdrMiddle(h))
    ensures |f| >= 48 && Word16(f, 16) == h.etype && Word16(f, 18) == h.machine
    ensures Word64(f, 24) == h.entry && Word64(f, 32) == h.phoff && Word64(f, 40) == h.shoff
  {
    hide LE, Word16, Word64;
    TwoParts(f, 16, LE(h.etype, 2) + LE(h.machine, 2) + LE(1, 4), LE(h.entry, 8) + LE(h.phoff, 8) + LE(h.shoff, 8));
    ThreeParts(f, 16, LE(h.etype, 2), LE(h.machine, 2), LE(1, 4));
    ThreeParts(f, 24, LE(h.entry, 8), LE(h.phoff, 8), LE(h.shoff, 8));
    Word16At(f, 16, h.etype);
    Word16At(f, 18, h.machine);
    Word64At(f, 24, h.entry);
    Word64At(f, 32, h.phoff);
    Word64At(f, 40, h.shoff);
  }

  lemma TailFields(f: bytes, h: Ehdr)
    requires SliceAt(f, 48, EhdrTail(h)) && h.shentsize == SHDR_SIZE
    ensures |f| >= 64 && Word32(f, 48) == h.flags && Word16(f, 54) == h.phentsize && Word16(f, 56) == h.phnum
    ensures Word16(f, 58) == h.shentsize && Word16(f, 60) == h.shnum && Word16(f, 62) == h.shstrndx
  {
    hide LE, Word16, Word32;
    var a, b, c := LE(h.flags, 4), LE(EHDR_SIZE, 2) + LE(h.phentsize, 2) + LE(h.phnum, 2), LE(SHDR_SIZE, 2) + LE(h.shnum, 2) + LE(h.shstrndx, 2);
    ThreeParts(f, 48, a, b, c);
    ThreeParts(f, 52, LE(EHDR_SIZE, 2), LE(h.phentsize, 2), LE(h.phnum, 2));
    ThreeParts(f, 58, LE(SHDR_SIZE, 2), LE(h.shnum, 2), LE(h.shstrndx, 2));
    Word32At(f, 48, h.flags);
    Word16At(f, 54, h.phentsize);
    Word16At(f, 56, h.phnum);
    Word16At(f, 58, h.shentsize);
    Word16At(f, 60, h.shnum);
    Word16At(f, 62, h.shstrndx);
  }

  // ---- section headers ------------------------------------------------------------------------

  datatype Shdr = Shdr(name: u32, shType: u32, flags: u64, addr: u64, offset: u64, size: u64, link: u32, info: u32,
                       align: u64, entsize: u64)

  function ShdrFront(s: Shdr): (bs: bytes)
    ensures |bs| == 24
  {
    (LE(s.name, 4) + LE(s.shType, 4)) + LE(s.flags, 8) + LE(s.addr, 8)
  }

  function ShdrBack(s: Shdr): (bs: bytes)
    ensures |bs| == 24
  {
    (LE(s.link, 4) + LE(s.info, 4)) + LE(s.align, 8) + LE(s.entsize, 8)
  }

  function WriteShdr(s: Shdr): (bs: bytes)
    ensures |bs| == SHDR_SIZE
  {
    ShdrFront(s) + (LE(s.offset, 8) + LE(s.size, 8)) + ShdrBack(s)
  }

  function ParseShdr(b: bytes, off: nat): Option<Shdr> {
    if |b| < off + SHDR_SIZE then None
    else
      Some(Shdr(Word32(b, off), Word32(b, off + 4), Word64(b, off + 8), Word64(b, off + 16), Word64(b, off + 24),
                Word64(b, off + 32), Word32(b, off + 40), Word32(b, off + 44), Word64(b, off + 48), Word64(b, off + 56)))
  }

  lemma ShdrRoundTrip(f: bytes, off: nat, s: Shdr)
    requires SliceAt(f, off, WriteShdr(s))
    ensures ParseShdr(f, off) == Some(s)
  {
    hide LE, WordAt, Word32, Word64;
    ThreeParts(f, off, ShdrFront(s), LE(s.offset, 8) + LE(s.size, 8), ShdrBack(s));
    ThreeParts(f, off, LE(s.name, 4) + LE(s.shType, 4), LE(s.flags, 8), LE(s.addr, 8));
    TwoParts(f, off, LE(s.name, 4), LE(s.shType, 4));
    TwoParts(f, off + 24, LE(s.offset, 8), LE(s.size, 8));
    ThreeParts(f, off + 40, LE(s.link, 4) + LE(s.info, 4), LE(s.align, 8), LE(s.entsize, 8));
    TwoParts(f, off + 40, LE(s.link, 4), LE(s.info, 4));
    Word32At(f, off, s.name);
    Word32At(f, off + 4, s.shType);
    Word64At(f, off + 8, s.flags);
    Word64At(f, off + 16, s.addr);
    Word64At(f, off + 24, s.offset);
    Word64At(f, off + 32, s.size);
    Word32At(f, off + 40, s.link);
    Word32At(f, off + 44, s.info);
    Word64At(f, off + 48, s.align);
    Word64At(f, off + 56, s.entsize);
  }

  // ---- symbols ------------------------------------------------------------------------------------

  datatype Sym = Sym(name: u32, info: byte, other: byte, shndx: u16, value: u64, size: u64) {
    function Bind(): nat { info / 16 }
    function Typ(): nat { info % 16 }
  }

  /** The binding in the high half byte, the type in the low one; excess bits are lost. */
  function SymInfo(bind: byte, typ: byte): byte {
    bind % 16 * 16 + typ % 16
  }

  lemma InfoRoundTrip(bind: byte, typ: byte)
    requires bind < 16 && typ < 16
    ensures SymInfo(bind, typ) / 16 == bind && SymInfo(bind, typ) % 16 == typ
  {
  }

  function WriteSym(s: Sym): (bs: bytes)
    ensures |bs| == SYM_SIZE
  {
    (LE(s.name, 4) + [s.info, s.other] + LE(s.shndx, 2)) + LE(s.value, 8) + LE(s.size, 8)
  }

  function ParseSym(b: bytes, off: nat): Option<Sym> {
    if |b| < off + SYM_SIZE then None
    else Some(Sym(Word32(b, off), b[off + 4], b[off + 5], Word16(b, off + 6), Word64(b, off + 8), Word64(b, off + 16)))
  }

  lemma SymRoundTrip(f: bytes, off: nat, s: Sym)
    requires SliceAt(f, off, WriteSym(s))
    ensures ParseSym(f, off) == Some(s)
  {
    hide LE, WordAt, Word16, Word32, Word64;
    ThreeParts(f, off, LE(s.name, 4) + [s.info, s.other] + LE(s.shndx, 2), LE(s.value, 8), LE(s.size, 8));
    ThreeParts(f, off, LE(s.name, 4), [s.info, s.other], LE(s.shndx, 2));
    assert f[off + 4] == f[off + 4..off + 6][0] && f[off + 5] == f[off + 4..off + 6][1];
    Word32At(f, off, s.name);
    Word16At(f, off + 6, s.shndx);
    Word64At(f, off + 8, s.value);
    Word64At(f, off + 16, s.size);
  }

  // ---- relocations -----------------------------------------------------------------------------------

  datatype RawRela = RawRela(offset: u64, info: u64, addend: i64) {
    function Sym(): nat { info / 0x1_0000_0000 }
    function Type(): nat { info % 0x1_0000_0000 }
  }

  function RelaInfo(sym: u32, rtype: u32): u64 {
    sym * 0x1_0000_0000 + rtype
  }

  lemma RelaInfoRoundTrip(sym: u32, rtype: u32)
    ensures RelaInfo(sym, rtype) / 0x1_0000_0000 == sym && RelaInfo(sym, rtype) % 0x1_0000_0000 == rtype
  {
  }

  function WriteRela(r: RawRela): (bs: bytes)
    ensures |bs| == RELA_SIZE
  {
    LE(r.offset, 8) + LE(r.info, 8) + LE(r.addend, 8)
  }

  function ParseRela(b: bytes, off: nat): Option<RawRela> {
    if |b| < off + RELA_SIZE then None
    else
      Some(RawRela(Word64(b, off), Word64(b, off + 8), Signed64(Word64(b, off + 16))))
  }

  /** The `as i64` reading of a word. */
  function Signed64(v: u64): i64 {
    Signed(v, 0x1_0000_0000_0000_0000)
  }

  lemma RelaRoundTrip(f: bytes, off: nat, r: RawRela)
    requires SliceAt(f, off, WriteRela(r))
    ensures ParseRela(f, off) == Some(r)
  {
    hide LE, Word64;
    ThreeParts(f, off, LE(r.offset, 8), LE(r.info, 8), LE(r.addend, 8));
    Word64At(f, off, r.offset);
    Word64At(f, off + 8, r.info);
    AddendRead(f, off + 16, r.addend);
  }

  lemma AddendRead(f: bytes, at: nat, v: i64)
    requires SliceAt(f, at, LE(v, 8))
    ensures at + 8 <= |f| && Signed64(Word64(f, at)) == v
  {
    Pow256Values();
    SignedRoundTrip(v, 8);
  }

  // ---- strings ------------------------------------------------------------------------------------------

  function UntilNul(bs: bytes): Option<bytes> {
    if bs == [] then None
    else if bs[0] == 0 then Some([])
    else
      var rest := UntilNul(bs[1..]);
      if rest.None? then None else Some([bs[0]] + rest.value)
  }

  /** The NUL-terminated string at an offset. */
  function ReadString(table: bytes, off: nat): Option<bytes> {
    if off >= |table| then None else UntilNul(table[off..])
  }

  lemma {:induction false} UntilNulReads(s: bytes, rest: bytes)
    requires 0 !in s
    ensures UntilNul(s + [0] + rest) == Some(s)
  {
    var bs := s + [0] + rest;
    if s == [] {
      assert bs[0] == 0;
    } else {
      assert bs[1..] == s[1..] + [0] + rest;
      UntilNulReads(s[1..], rest);
      assert s == [s[0]] + s[1..];
    }
  }

  lemma StringReads(table: bytes, off: nat, s: bytes)
    requires 0 !in s && SliceAt(table, off, s + [0])
    ensures ReadString(table, off) == Some(s)
  {
    var rest := table[off + |s| + 1..];
    assert table[off..] == table[off..off + |s + [0]|] + rest;
    assert table[off..] == s + [0] + rest;
    UntilNulReads(s, rest);
  }

  /** The table once the names are entered in order: the empty name and exact repeats take no room. */
  function TableOf(entered: seq<bytes>): (table: bytes)
    ensures table != [] && table[0] == 0
  {
    if entered == [] then [0]
    else
      var last := |entered| - 1;
      var before := TableOf(entered[..last]);
      if entered[last] == [] || entered[last] in entered[..last] then before else before + entered[last] + [0]
  }

  lemma FirstNul(table: bytes)
    requires table != [] && table[0] == 0
    ensures SliceAt(table, 0, [0])
  {
    assert table[0..1] == [0];
  }

  /** A name appended with its NUL reads back, and so does every earlier one. */
  lemma Appended(before: bytes, s: bytes, index: map<bytes, u32>)
    requires forall t <- index :: SliceAt(before, index[t], t + [0])
    ensures forall t <- index :: SliceAt(before + s + [0], index[t], t + [0])
    ensures SliceAt(before + s + [0], |before|, s + [0])
  {
    assert before + s + [0] == before + (s + [0]);
    forall t <- index ensures SliceAt(before + s + [0], index[t], t + [0]) {
      SliceKept(before, s + [0], index[t], t + [0]);
    }
  }

  /** A string table under construction; exact repeats are shared. Offsets are 32-bit. */
  class StringTable {
    var data: bytes
    var index: map<bytes, u32>
    /** The names so far, in the order they were entered. */
    ghost var entered: seq<bytes>

    /** While offsets fit in 32 bits every entered name reads back. */
    ghost predicate Valid()
      reads this
    {
      && data == TableOf(entered)
      && (forall s :: s in index <==> s in entered && s != [])
      && (|data| <= U32_MAX ==> forall s <- index :: SliceAt(data, index[s], s + [0]))
    }

    constructor ()
      ensures Valid() && entered == []
    {
      data, index, entered := [0], map[], [];
    }

    /** Enter a name: its offset reads back, and nothing already entered moves. */
    method Intern(s: bytes) returns (off: u32)
      requires Valid()
      modifies this
      ensures Valid() && old(data) <= data && entered == old(entered) + [s]
      ensures NameAt(data, off, s)
    {
      hide TableOf, SliceAt;
      TableNext(entered, s);
      entered := entered + [s];
      if s == [] {
        FirstNul(data);
        assert s + [0] == [0];
        return 0;
      }
      if s in index {
        return index[s];
      }
      off := |data| % 0x1_0000_0000;
      ghost var before := data;
      data := data + s + [0];
      if |data| <= U32_MAX {
        DivModUnique(|before|, 0x1_0000_0000, 0, |before|);
        Appended(before, s, index);
      }
      index := index[s := off];
    }
  }

  lemma TableNext(entered: seq<bytes>, s: bytes)
    ensures TableOf(entered + [s]) == if s == [] || s in entered then TableOf(entered) else TableOf(entered) + s + [0]
  {
    assert (entered + [s])[..|entered|] == entered;
  }

  /** The name stands at the offset, provided the table is small enough for 32-bit offsets. */
  predicate NameAt(table: bytes, off: nat, s: bytes) {
    |table| <= U32_MAX ==> SliceAt(table, off, s + [0])
  }

  /** Entered names still read back after more is entered. */
  lemma StillReads(before: bytes, after: bytes, off: nat, s: bytes)
    requires before <= after && NameAt(before, off, s)
    ensures NameAt(after, off, s)
  {
    assert after == before + after[|before|..];
    if |after| <= U32_MAX {
      SliceKept(before, after[|before|..], off, s + [0]);
    }
  }
}
