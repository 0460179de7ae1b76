/**
  The ELF object model (src/elf.rs): its validity, the order in which symbols are written, and the
  object a reader can recover, whose symbols are permuted locals first.
 */
module ElfObject {
  import opened Words
  import opened Sorting
  import opened ElfWire

  datatype SymbolPlace = Undef | Abs | Common | InSection(index: nat)

  datatype ElfSymbol = ElfSymbol(name: bytes, bind: byte, typ: byte, vis: byte, place: SymbolPlace, value: u64, size: u64)

  datatype Rela = Rela(offset: u64, symbol: nat, rtype: u32, addend: i64)

  datatype ElfSection = ElfSection(name: bytes, shType: u32, flags: u64, align: u64, data: bytes, nobitsSize: u64, relas: seq<Rela>)

  datatype ElfObject = ElfObject(machine: u16, osabi: byte, gnuStack: Option<u64>, sections: seq<ElfSection>, symbols: seq<ElfSymbol>)

  const EM_X86_64: nat := 62
  const EM_AARCH64: nat := 183

  // ---- validation -----------------------------------------------------------------------

  function RelocWidth(machine: nat, rtype: nat): Option<nat> {
    if machine == EM_X86_64 then
      if rtype == 0 then Some(0)
      else if rtype in {1, 24} then Some(8)
      else if rtype in {2, 4, 9, 10, 11, 41, 42} then Some(4)
      else None
    else if machine == EM_AARCH64 then
      if rtype == 0 then Some(0)
      else if rtype in {257, 260} then Some(8)
      else if rtype in {259, 262} then Some(2)
      else if rtype in {258, 261, 275, 277, 278, 279, 280, 282, 283, 284, 285, 286, 299, 311, 312, 541, 542} then Some(4)
      else None
    else None
  }

  predicate PowerOfTwo(v: nat) {
    v == 1 || (v > 1 && v % 2 == 0 && PowerOfTwo(v / 2))
  }

  /** The 64-bit sum of an unchecked addition, overflow checks off. */
  function WrappedSum(a: nat, b: nat): nat {
    (a + b) % 0x1_0000_0000_0000_0000
  }

  /** The checks of one relocation, its end summed without an overflow check. */
  predicate RelaOk(obj: ElfObject, sec: ElfSection, r: Rela) {
    && r.symbol < |obj.symbols|
    && var width := RelocWidth(obj.machine, r.rtype);
       width.Some? && sec.shType != SHT_NOBITS && WrappedSum(r.offset, width.value) <= |sec.data|
  }

  /** What the checks are for: a known relocation of a known symbol, inside the section's bytes. */
  predicate RelaInside(obj: ElfObject, sec: ElfSection, r: Rela) {
    && r.symbol < |obj.symbols|
    && var width := RelocWidth(obj.machine, r.rtype);
       width.Some? && sec.shType != SHT_NOBITS && r.offset + width.value <= |sec.data|
  }

  /** The end of the relocated field lies past 2^64, and what is left of it inside the section. */
  predicate EndWraps(obj: ElfObject, sec: ElfSection, r: Rela) {
    var width := RelocWidth(obj.machine, r.rtype);
    width.Some? && r.offset + width.value > U64_MAX && r.offset + width.value <= U64_MAX + 1 + |sec.data|
  }

  /** The checks accept every relocation inside its section, and besides exactly those whose end wraps. */
  lemma RelaChecked(obj: ElfObject, sec: ElfSection, r: Rela)
    requires |sec.data| <= U64_MAX && r.symbol < |obj.symbols| && sec.shType != SHT_NOBITS
    ensures RelaInside(obj, sec, r) ==> RelaOk(obj, sec, r)
    ensures (RelaOk(obj, sec, r) ==> RelaInside(obj, sec, r)) <==> !EndWraps(obj, sec, r)
  {
    hide RelocWidth;
    var width := RelocWidth(obj.machine, r.rtype);
    if width.Some? {
      var end := r.offset + width.value;
      RelocWidthSmall(obj.machine, r.rtype);
      if end <= U64_MAX {
        DivModUnique(end, U64_MAX + 1, 0, end);
      } else {
        DivModUnique(end, U64_MAX + 1, 1, end - U64_MAX - 1);
      }
    }
  }

  lemma RelocWidthSmall(machine: nat, rtype: nat)
    ensures RelocWidth(machine, rtype).Some? ==> RelocWidth(machine, rtype).value <= 8
  {
  }

  /** A four-byte relocation at the last four addresses is accepted in a section without any byte. */
  lemma WrappedEndAccepted()
    ensures var sec := ElfSection([0x64], SHT_PROGBITS, 0, 1, [], 0, [Rela(0xFFFF_FFFF_FFFF_FFFC, 0, 2, 0)]);
            var obj := ElfObject(EM_X86_64, 0, None, [sec], [ElfSymbol([0x73], 1, 0, 0, Undef, 0, 0)]);
            ValidObject(obj) && !RelaInside(obj, sec, sec.relas[0])
  {
    var sec := ElfSection([0x64], SHT_PROGBITS, 0, 1, [], 0, [Rela(0xFFFF_FFFF_FFFF_FFFC, 0, 2, 0)]);
    var obj := ElfObject(EM_X86_64, 0, None, [sec], [ElfSymbol([0x73], 1, 0, 0, Undef, 0, 0)]);
    assert ElfSectionOk(obj, sec) && PlaceOk(obj, obj.symbols[0]);
  }

  predicate ElfSectionOk(obj: ElfObject, sec: ElfSection) {
    && (sec.align == 0 || PowerOfTwo(sec.align))
    && forall k :: 0 <= k < |sec.relas| ==> RelaOk(obj, sec, sec.relas[k])
  }

  predicate PlaceOk(obj: ElfObject, s: ElfSymbol) {
    s.place.InSection? ==> s.place.index < |obj.sections|
  }

  predicate ValidObject(obj: ElfObject) {
    && (forall i :: 0 <= i < |obj.sections| ==> ElfSectionOk(obj, obj.sections[i]))
    && (forall i :: 0 <= i < |obj.symbols| ==> PlaceOk(obj, obj.symbols[i]))
  }

  method Validate(obj: ElfObject) returns (ok: bool)
    ensures ok == ValidObject(obj)
  {
    var i := 0;
    while i < |obj.sections|
      invariant 0 <= i <= |obj.sections|
      invariant forall k :: 0 <= k < i ==> ElfSectionOk(obj, obj.sections[k])
    {
      var sec := obj.sections[i];
      if sec.align != 0 && !PowerOfTwo(sec.align) {
        return false;
      }
      var k := 0;
      while k < |sec.relas|
        invariant 0 <= k <= |sec.relas|
        invariant forall q :: 0 <= q < k ==> RelaOk(obj, sec, sec.relas[q])
      {
        if !RelaOk(obj, sec, sec.relas[k]) {
          return false;
        }
        k := k + 1;
      }
      i := i + 1;
    }
    i := 0;
    while i < |obj.symbols|
      invariant 0 <= i <= |obj.symbols|
      invariant forall k :: 0 <= k < i ==> PlaceOk(obj, obj.symbols[k])
    {
      if !PlaceOk(obj, obj.symbols[i]) {
        return false;
      }
      i := i + 1;
    }
    return true;
  }

  // ---- the order of symbols ------------------------------------------------------------------

  function Binding(symbols: seq<ElfSymbol>, local: bool): nat -> bool {
    (i: nat) => i < |symbols| && (symbols[i].bind == STB_LOCAL) == local
  }

  function Locals(symbols: seq<ElfSymbol>): seq<nat> { Filter(Indices(|symbols|), Binding(symbols, true)) }

  function NonLocals(symbols: seq<ElfSymbol>): seq<nat> { Filter(Indices(|symbols|), Binding(symbols, false)) }

  /** Local symbols in order, then the others in order. */
  function LocalsFirst(symbols: seq<ElfSymbol>): seq<nat> {
    Locals(symbols) + NonLocals(symbols)
  }

  lemma {:induction false} PartitionCount(s: seq<nat>, symbols: seq<ElfSymbol>)
    requires forall i :: 0 <= i < |s| ==> s[i] < |symbols|
    ensures multiset(Filter(s, Binding(symbols, true)) + Filter(s, Binding(symbols, false))) == multiset(s)
    ensures |Filter(s, Binding(symbols, true))| + |Filter(s, Binding(symbols, false))| == |s|
  {
    if s != [] {
      PartitionCount(s[1..], symbols);
      assert s == [s[0]] + s[1..];
    }
  }

  lemma LocalsFirstPermutes(symbols: seq<ElfSymbol>)
    ensures IsPermutation(LocalsFirst(symbols), |symbols|)
  {
    hide Filter, Indices;
    var n, order := |symbols|, LocalsFirst(symbols);
    forall i | 0 <= i < n ensures Indices(n)[i] == i {}
    PartitionCount(Indices(n), symbols);
    assert multiset(order) == multiset(Indices(n));
    forall t | 0 <= t < n ensures order[t] < n {
      assert order[t] in multiset(order);
      assert order[t] in Indices(n);
    }
    forall k: nat | k < n ensures k in order {
      assert Indices(n)[k] in multiset(Indices(n));
      assert k in multiset(order);
    }
    forall t, u | 0 <= t < u < n ensures order[t] != order[u] {
      if order[t] == order[u] {
        CountTwice(order, t, u);
        CountOnce(n, order[t]);
        assert false;
      }
    }
  }

  /** The order is a permutation: locals come first, and each part keeps its order. */
  lemma LocalsFirstOrder(symbols: seq<ElfSymbol>)
    ensures IsPermutation(LocalsFirst(symbols), |symbols|)
    ensures forall k :: 0 <= k < |symbols| ==>
              (symbols[LocalsFirst(symbols)[k]].bind == STB_LOCAL <==> k < |Locals(symbols)|)
    ensures forall j, k :: 0 <= j < k < |symbols| && (k < |Locals(symbols)| || j >= |Locals(symbols)|) ==>
              LocalsFirst(symbols)[j] < LocalsFirst(symbols)[k]
  {
    hide Filter, Indices;
    LocalsFirstPermutes(symbols);
    var n, order := |symbols|, LocalsFirst(symbols);
    var locals, others := Locals(symbols), NonLocals(symbols);
    FilterAll(Indices(n), Binding(symbols, true));
    FilterAll(Indices(n), Binding(symbols, false));
    forall k | 0 <= k < n ensures symbols[order[k]].bind == STB_LOCAL <==> k < |locals| {
      if k < |locals| {
        assert order[k] == locals[k] && locals[k] in locals;
      } else {
        assert order[k] == others[k - |locals|] && others[k - |locals|] in others;
      }
    }
    forall j, k | 0 <= j < k < n && (k < |locals| || j >= |locals|) ensures order[j] < order[k] {
      if k < |locals| {
        FilteredIndicesIncrease(n, Binding(symbols, true), j, k);
      } else {
        FilteredIndicesIncrease(n, Binding(symbols, false), j - |locals|, k - |locals|);
      }
    }
  }

  /** Where a value stands in a sequence, or its length. */
  function Position(order: seq<nat>, i: nat): (k: nat)
    ensures k <= |order|
    ensures k < |order| ==> order[k] == i
    ensures i in order ==> k < |order|
  {
    if order == [] then 0 else if order[0] == i then 0 else 1 + Position(order[1..], i)
  }

  // ---- what a reader recovers --------------------------------------------------------------------

  function Ordered(symbols: seq<ElfSymbol>, order: seq<nat>): (r: seq<ElfSymbol>)
    requires forall k :: 0 <= k < |order| ==> order[k] < |symbols|
    ensures |r| == |order| && forall k :: 0 <= k < |order| ==> r[k] == symbols[order[k]]
  {
    seq(|order|, k requires 0 <= k < |order| => symbols[order[k]])
  }

  function Renamed(relas: seq<Rela>, order: seq<nat>): (r: seq<Rela>)
    ensures |r| == |relas| && forall k :: 0 <= k < |relas| ==> r[k] == relas[k].(symbol := Position(order, relas[k].symbol))
  {
    seq(|relas|, k requires 0 <= k < |relas| => relas[k].(symbol := Position(order, relas[k].symbol)))
  }

  function RenamedSections(sections: seq<ElfSection>, order: seq<nat>): (r: seq<ElfSection>)
    ensures |r| == |sections|
    ensures forall i :: 0 <= i < |sections| ==> r[i] == sections[i].(relas := Renamed(sections[i].relas, order))
  {
    seq(|sections|, i requires 0 <= i < |sections| => sections[i].(relas := Renamed(sections[i].relas, order)))
  }

  /** The object with its symbols permuted locals first, every relocation still naming the same symbol. */
  function Normalized(obj: ElfObject): ElfObject
    requires IsPermutation(LocalsFirst(obj.symbols), |obj.symbols|)
  {
    var order := LocalsFirst(obj.symbols);
    obj.(symbols := Ordered(obj.symbols, order), sections := RenamedSections(obj.sections, order))
  }

  /** Relocations keep their symbols through the permutation. */
  lemma SameSymbols(obj: ElfObject, i: nat, k: nat)
    requires IsPermutation(LocalsFirst(obj.symbols), |obj.symbols|)
    requires i < |obj.sections| && k < |obj.sections[i].relas| && obj.sections[i].relas[k].symbol < |obj.symbols|
    ensures var r, r' := obj.sections[i].relas[k], Normalized(obj).sections[i].relas[k];
            r'.symbol < |obj.symbols| && Normalized(obj).symbols[r'.symbol] == obj.symbols[r.symbol]
  {
    assert obj.sections[i].relas[k].symbol in LocalsFirst(obj.symbols);
  }

  // ---- objects the format can hold -----------------------------------------------------------------

  const NOTE_GNU_STACK: bytes := [0x2E, 0x6E, 0x6F, 0x74, 0x65, 0x2E, 0x47, 0x4E, 0x55, 0x2D, 0x73, 0x74, 0x61, 0x63, 0x6B]
  const COMMENT: bytes := [0x2E, 0x63, 0x6F, 0x6D, 0x6D, 0x65, 0x6E, 0x74]
  const NOTE_GNU: bytes := [0x2E, 0x6E, 0x6F, 0x74, 0x65, 0x2E, 0x67, 0x6E, 0x75]
  const SYMTAB_NAME: bytes := [0x2E, 0x73, 0x79, 0x6D, 0x74, 0x61, 0x62]
  const STRTAB_NAME: bytes := [0x2E, 0x73, 0x74, 0x72, 0x74, 0x61, 0x62]
  const SHSTRTAB_NAME: bytes := [0x2E, 0x73, 0x68, 0x73, 0x74, 0x72, 0x74, 0x61, 0x62]
  const RELA_PREFIX: bytes := [0x2E, 0x72, 0x65, 0x6C, 0x61]

  /** The reader keeps the section as content. */
  predicate KeptSection(s: ElfSection) {
    && s.shType != SHT_NULL && s.shType != SHT_SYMTAB && s.shType != SHT_STRTAB && s.shType != SHT_RELA
    && s.name != NOTE_GNU_STACK && s.name != COMMENT && !(NOTE_GNU <= s.name)
    && 0 !in s.name
    && (if s.shType == SHT_NOBITS then s.data == [] else s.nobitsSize == 0)
  }

  /** The reader keeps the symbol, and its fields fit the entry. */
  predicate KeptSymbol(s: ElfSymbol) {
    s.typ != STT_SECTION && s.bind < 16 && s.typ < 16 && s.vis < 4 && 0 !in s.name
  }

  /** Fewer than SHN_LORESERVE sections, and nothing the reader skips. */
  ghost predicate RoundTrippable(obj: ElfObject) {
    && |obj.sections| < SHN_LORESERVE
    && |obj.symbols| < U32_MAX
    && (forall i :: 0 <= i < |obj.sections| ==> KeptSection(obj.sections[i]))
    && (forall i :: 0 <= i < |obj.symbols| ==> KeptSymbol(obj.symbols[i]))
  }
}
