/**
  Relocation folding: each pending reference is patched in place, rewritten against a section
  symbol with the offset folded into the addend, or kept as a symbol relocation.

  `Folder` is the state the source threads through the loop. The lemmas say that linking the
  folded object gives every field the value that one symbol relocation per reference would.
 */
module X86Fold {
  import opened Words
  import opened X86Layout
  import opened X86Materialize

  const R_X86_64_32S: nat := 11

  datatype Place = InSection(section: nat) | Undef | Common

  datatype Symbol = Symbol(name: string, isSection: bool, place: Place, value: nat)

  datatype Rela = Rela(offset: nat, symbol: nat, rType: nat, addend: int)

  /** Where names are defined: labels by (section, offset), local commons by offset in `.bss`. */
  datatype Definitions = Definitions(
    labels: map<string, (nat, nat)>,
    commons: map<string, nat>,
    bss: nat,
    exported: set<string>)        // .globl or .weak

  // ---- System V AMD64 psABI, section 4.4.1 -------------------------------------------

  /** A link: one address per section and per name this object does not define. */
  datatype Link = Link(base: nat -> int, ext: string -> int)

  predicate IsPcRelative(rType: nat) {
    rType == R_X86_64_PC32 || rType == R_X86_64_PLT32 || rType == R_X86_64_PC64
  }

  predicate IsSupported(rType: nat) {
    IsPcRelative(rType) || rType == R_X86_64_64 || rType == R_X86_64_32 || rType == R_X86_64_32S
  }

  function FieldWidth(rType: nat): nat {
    if rType == R_X86_64_64 || rType == R_X86_64_PC64 then 8 else 4
  }

  /** S + A, or S + A - P for the pc-relative kinds; a PLT32 against a defined function binds to it. */
  function RelocValue(rType: nat, s: int, a: int, p: int): int {
    if IsPcRelative(rType) then s + a - p else s + a
  }

  function NameAddress(d: Definitions, link: Link, name: string): int {
    if name in d.labels then link.base(d.labels[name].0) + d.labels[name].1
    else if name in d.commons then link.base(d.bss) + d.commons[name]
    else link.ext(name)
  }

  function SymbolAddress(symbol: Symbol, link: Link): int {
    match symbol.place
    case InSection(s) => link.base(s) + symbol.value
    case _ => link.ext(symbol.name)
  }

  /** What a reference means: the value one symbol relocation against its name would store. */
  function Wanted(d: Definitions, link: Link, section: nat, r: Reloc): int {
    RelocValue(r.rType, NameAddress(d, link, r.sym), r.addend, link.base(section) + r.offset)
  }

  function FindRela(relas: seq<Rela>, offset: nat): Option<Rela> {
    if relas == [] then None
    else if relas[0].offset == offset then Some(relas[0])
    else FindRela(relas[1..], offset)
  }

  /** Field value after linking: the relocation against it decides, or else the stored bytes. */
  function Linked(data: seq<byte>, relas: seq<Rela>, symbols: seq<Symbol>, link: Link, section: nat, offset: nat, width: nat): int
    requires offset + width <= |data|
    requires forall k :: 0 <= k < |relas| ==> relas[k].symbol < |symbols|
  {
    FindRelaIn(relas, offset);
    match FindRela(relas, offset)
    case None => FromLE(data[offset..offset + width])
    case Some(rela) =>
      RelocValue(rela.rType, SymbolAddress(symbols[rela.symbol], link), rela.addend, link.base(section) + offset) % Pow256(width)
  }

  lemma {:induction false} FindRelaIn(relas: seq<Rela>, offset: nat)
    ensures FindRela(relas, offset).Some? ==>
              exists k :: 0 <= k < |relas| && relas[k] == FindRela(relas, offset).value && relas[k].offset == offset
    ensures FindRela(relas, offset).None? ==> forall k :: 0 <= k < |relas| ==> relas[k].offset != offset
  {
    if relas != [] && relas[0].offset != offset {
      FindRelaIn(relas[1..], offset);
      if FindRela(relas, offset).Some? {
        var k :| 0 <= k < |relas[1..]| && relas[1..][k] == FindRela(relas, offset).value && relas[1..][k].offset == offset;
        assert relas[k + 1] == relas[1..][k];
      } else {
        forall k | 0 <= k < |relas| ensures relas[k].offset != offset {
          assert k > 0 ==> relas[k] == relas[1..][k - 1];
        }
      }
    }
  }

  lemma {:induction false} FindAppended(relas: seq<Rela>, rela: Rela, offset: nat)
    ensures FindRela(relas + [rela], offset) ==
              if FindRela(relas, offset).Some? then FindRela(relas, offset)
              else if rela.offset == offset then Some(rela) else None
  {
    if relas == [] {
      assert relas + [rela] == [rela] && [rela][1..] == [];
    } else {
      assert (relas + [rela])[1..] == relas[1..] + [rela];
      FindAppended(relas[1..], rela, offset);
    }
  }

  // ---- how one reference is settled ---------------------------------------------------------

  /** (section, offset, local?) of a name defined in this object. */
  function Target(d: Definitions, name: string): Option<(nat, nat, bool)> {
    if name in d.labels then Some((d.labels[name].0, d.labels[name].1, name !in d.exported))
    else if name in d.commons then Some((d.bss, d.commons[name], true))
    else None
  }

  predicate PatchesInPlace(d: Definitions, section: nat, r: Reloc) {
    && Target(d, r.sym).Some? && Target(d, r.sym).value.2 && Target(d, r.sym).value.0 == section
    && (r.rType == R_X86_64_PC32 || r.rType == R_X86_64_PLT32)
  }

  /** The symbol stands for this name: same definition, or the same undefined name. */
  predicate Names(d: Definitions, symbol: Symbol, name: string) {
    && symbol.name == name
    && match Target(d, name)
       case Some((s, off, _)) => symbol.place == InSection(s) && symbol.value == off
       case None => !symbol.place.InSection?
  }

  predicate IsSectionSymbol(symbol: Symbol, section: nat) {
    symbol.isSection && symbol.place == InSection(section) && symbol.value == 0
  }

  function ReducedType(rType: nat): nat {
    if rType == R_X86_64_PLT32 then R_X86_64_PC32 else rType
  }

  /** The relocation a reference becomes when it is not patched in place. */
  predicate RelaFor(d: Definitions, symbols: seq<Symbol>, r: Reloc, rela: Rela) {
    && rela.offset == r.offset && rela.symbol < |symbols|
    && var target := Target(d, r.sym);
       if target.Some? && target.value.2 then
         && IsSectionSymbol(symbols[rela.symbol], target.value.0)
         && rela.rType == ReducedType(r.rType)
         && rela.addend == WrapI64(WrapI64(target.value.1) + r.addend)
       else
         && Names(d, symbols[rela.symbol], r.sym)
         && rela.rType == r.rType && rela.addend == r.addend
  }

  predicate Settled(d: Definitions, data: seq<byte>, relas: seq<Rela>, symbols: seq<Symbol>, section: nat, r: Reloc) {
    if PatchesInPlace(d, section, r) then
      && FindRela(relas, r.offset) == None && r.offset + 4 <= |data|
      && IsI32(Target(d, r.sym).value.1 + r.addend - r.offset)
      && data[r.offset..r.offset + 4] == LE(Target(d, r.sym).value.1 + r.addend - r.offset, 4)
    else
      && FindRela(relas, r.offset).Some?
      && RelaFor(d, symbols, r, FindRela(relas, r.offset).value)
  }

  /** A settled reference links to the value its symbol relocation would have stored, modulo the field width. */
  lemma SettledMeaning(d: Definitions, data: seq<byte>, relas: seq<Rela>, symbols: seq<Symbol>, section: nat, r: Reloc, link: Link)
    requires IsSupported(r.rType) && r.offset + FieldWidth(r.rType) <= |data|
    requires forall k :: 0 <= k < |relas| ==> relas[k].symbol < |symbols|
    requires Settled(d, data, relas, symbols, section, r)
    ensures Linked(data, relas, symbols, link, section, r.offset, FieldWidth(r.rType))
            == Wanted(d, link, section, r) % Pow256(FieldWidth(r.rType))
  {
    if PatchesInPlace(d, section, r) {
      PatchedMeaning(d, data, relas, symbols, section, r, link);
    } else {
      RelocatedMeaning(d, data, relas, symbols, section, r, link);
    }
  }

  lemma PatchedMeaning(d: Definitions, data: seq<byte>, relas: seq<Rela>, symbols: seq<Symbol>, section: nat, r: Reloc, link: Link)
    requires IsSupported(r.rType) && r.offset + FieldWidth(r.rType) <= |data| && PatchesInPlace(d, section, r)
    requires forall k :: 0 <= k < |relas| ==> relas[k].symbol < |symbols|
    requires Settled(d, data, relas, symbols, section, r)
    ensures Linked(data, relas, symbols, link, section, r.offset, FieldWidth(r.rType))
            == Wanted(d, link, section, r) % Pow256(FieldWidth(r.rType))
  {
    hide LE, FromLE, Pow256, FindRela;
    var disp := Target(d, r.sym).value.1 + r.addend - r.offset;
    FieldRoundTrip(disp, 4);
    assert Wanted(d, link, section, r) == disp;
  }

  lemma RelocatedMeaning(d: Definitions, data: seq<byte>, relas: seq<Rela>, symbols: seq<Symbol>, section: nat, r: Reloc, link: Link)
    requires IsSupported(r.rType) && r.offset + FieldWidth(r.rType) <= |data| && !PatchesInPlace(d, section, r)
    requires forall k :: 0 <= k < |relas| ==> relas[k].symbol < |symbols|
    requires Settled(d, data, relas, symbols, section, r)
    ensures Linked(data, relas, symbols, link, section, r.offset, FieldWidth(r.rType))
            == Wanted(d, link, section, r) % Pow256(FieldWidth(r.rType))
  {
    hide Pow256, FindRela, WrapI64, FromLE;
    var rela := FindRela(relas, r.offset).value;
    FindRelaIn(relas, r.offset);
    EntryMeaning(d, symbols, section, r, rela, link);
  }

  /** The entry a reference becomes relocates to what the reference means. */
  lemma EntryMeaning(d: Definitions, symbols: seq<Symbol>, section: nat, r: Reloc, rela: Rela, link: Link)
    requires IsSupported(r.rType) && RelaFor(d, symbols, r, rela)
    ensures var width := FieldWidth(r.rType);
            RelocValue(rela.rType, SymbolAddress(symbols[rela.symbol], link), rela.addend, link.base(section) + r.offset) % Pow256(width)
            == Wanted(d, link, section, r) % Pow256(width)
  {
    hide Pow256, WrapI64;
    var target := Target(d, r.sym);
    if target.Some? && target.value.2 {
      var p := link.base(section) + r.offset;
      var rest := link.base(target.value.0) - (if IsPcRelative(r.rType) then p else 0);
      FoldedAddend(target.value.1, r.addend, rest, FieldWidth(r.rType));
      assert IsPcRelative(rela.rType) == IsPcRelative(r.rType);
    }
  }

  /** Folding an offset into a wrapping addend is invisible modulo any field width up to 8 bytes. */
  lemma {:induction false} FoldedAddend(off: int, addend: int, rest: int, width: nat)
    requires width <= 8
    ensures (rest + WrapI64(WrapI64(off) + addend)) % Pow256(width) == (rest + off + addend) % Pow256(width)
  {
    hide WrapI64, Pow256;
    var p, w := Pow256(width), WrapI64(off);
    var x := w + addend;
    var y := WrapI64(x);
    WrapI64Congruent(off, width);
    WrapI64Congruent(x, width);
    var k := ModEqualDifference(w, off, p);
    var m := ModEqualDifference(y, x, p);
    var n, sum := k + m, rest + off + addend;
    assert n * p == k * p + m * p;
    assert rest + y == sum + n * p;
    ModAddMultiple(sum, n, p);
  }

  // ---- the folding loop ------------------------------------------------------------------------

  datatype FoldError =
    | DisplacementOverflow(sym: string)
    | PatchInNobits(sym: string)
    | MissingSymbol(sym: string)
    | RelocationInNobits(sym: string)

  /** Why a reference cannot be settled, if it cannot; `known` are the names that have symbols. */
  function Refusal(d: Definitions, nobits: bool, size: nat, known: set<string>, section: nat, r: Reloc): Option<FoldError> {
    if PatchesInPlace(d, section, r) then
      if !IsI32(Target(d, r.sym).value.1 + r.addend - r.offset) then Some(DisplacementOverflow(r.sym))
      else if r.offset + 4 > size then Some(PatchInNobits(r.sym))
      else None
    else if Target(d, r.sym).Some? && !Target(d, r.sym).value.2 && r.sym !in known then Some(MissingSymbol(r.sym))
    else if nobits then Some(RelocationInNobits(r.sym))
    else None
  }

  predicate Apart(a: Reloc, b: Reloc) {
    a.offset + FieldWidth(a.rType) <= b.offset || b.offset + FieldWidth(b.rType) <= a.offset
  }

  /** Fields do not overlap. */
  predicate Disjoint(relocs: seq<Reloc>) {
    forall i, j :: 0 <= i < j < |relocs| ==> Apart(relocs[i], relocs[j])
  }

  predicate DefinedWithin(d: Definitions, n: nat) {
    && (forall name <- d.labels :: d.labels[name].0 < n)
    && (|d.commons| > 0 ==> d.bss < n)
  }

  /** The symbols of the visible labels among `order`, in order, each at its label's place. */
  function VisibleSymbols(d: Definitions, order: seq<string>): seq<Symbol> {
    if order == [] then []
    else
      var last := order[|order| - 1];
      VisibleSymbols(d, order[..|order| - 1])
      + if last in d.labels && !IsHidden(d, last) then [Symbol(last, false, InSection(d.labels[last].0), d.labels[last].1)] else []
  }

  /** Names and sections are mapped to symbols that stand for them. */
  ghost predicate IndexOk(d: Definitions, symbols: seq<Symbol>, symIndex: map<string, nat>, sectionSym: map<nat, nat>) {
    && (forall name <- symIndex :: symIndex[name] < |symbols| && Names(d, symbols[symIndex[name]], name))
    && (forall s <- sectionSym :: sectionSym[s] < |symbols| && IsSectionSymbol(symbols[sectionSym[s]], s))
  }

  /** Every relocation entry has one of the first n symbols. */
  ghost predicate RelasOk(relas: seq<seq<Rela>>, n: nat) {
    forall s, k :: 0 <= s < |relas| && 0 <= k < |relas[s]| ==> relas[s][k].symbol < n
  }

  lemma LabelNamed(d: Definitions, name: string, symbol: Symbol)
    requires name in d.labels && symbol == Symbol(name, false, InSection(d.labels[name].0), d.labels[name].1)
    ensures Names(d, symbol, name)
  {
  }

  lemma NameEntered(d: Definitions, symbols: seq<Symbol>, symIndex: map<string, nat>, sectionSym: map<nat, nat>, name: string, symbol: Symbol)
    requires IndexOk(d, symbols, symIndex, sectionSym) && Names(d, symbol, name)
    ensures IndexOk(d, symbols + [symbol], symIndex[name := |symbols|], sectionSym)
  {
    hide Names, IsSectionSymbol;
  }

  lemma SectionEntered(d: Definitions, symbols: seq<Symbol>, symIndex: map<string, nat>, sectionSym: map<nat, nat>, s: nat, symbol: Symbol)
    requires IndexOk(d, symbols, symIndex, sectionSym) && IsSectionSymbol(symbol, s)
    ensures IndexOk(d, symbols + [symbol], symIndex, sectionSym[s := |symbols|])
  {
    hide Names, IsSectionSymbol;
  }

  lemma RelasKept(relas: seq<seq<Rela>>, n: nat, more: nat)
    requires RelasOk(relas, n) && n <= more
    ensures RelasOk(relas, more)
  {
  }

  lemma RelaAdded(relas: seq<seq<Rela>>, n: nat, s: nat, rela: Rela)
    requires RelasOk(relas, n) && s < |relas| && rela.symbol < n
    ensures RelasOk(relas[s := relas[s] + [rela]], n)
  {
  }

  lemma IndexNames(d: Definitions, symbols: seq<Symbol>, symIndex: map<string, nat>, sectionSym: map<nat, nat>, name: string)
    requires IndexOk(d, symbols, symIndex, sectionSym) && name in symIndex
    ensures symIndex[name] < |symbols| && Names(d, symbols[symIndex[name]], name)
  {
  }

  lemma PatchedSize(data: seq<byte>, offset: nat, disp: int)
    requires offset + 4 <= |data|
    ensures |data[..offset] + LE(disp, 4) + data[offset + 4..]| == |data|
  {
  }

  lemma TargetWithin(d: Definitions, n: nat, name: string)
    requires DefinedWithin(d, n)
    ensures Target(d, name).Some? ==> Target(d, name).value.0 < n
  {
  }

  /** A local name's entry goes against its section, with the offset in the addend. */
  lemma LocalEntry(d: Definitions, symbols: seq<Symbol>, r: Reloc, index: nat)
    requires Target(d, r.sym).Some? && Target(d, r.sym).value.2 && index < |symbols|
    requires IsSectionSymbol(symbols[index], Target(d, r.sym).value.0)
    ensures RelaFor(d, symbols, r, Rela(r.offset, index, ReducedType(r.rType), WrapI64(WrapI64(Target(d, r.sym).value.1) + r.addend)))
  {
    hide WrapI64;
  }

  /** Another name's entry goes against its own symbol. */
  lemma NamedEntry(d: Definitions, symbols: seq<Symbol>, r: Reloc, index: nat)
    requires !(Target(d, r.sym).Some? && Target(d, r.sym).value.2) && index < |symbols| && Names(d, symbols[index], r.sym)
    ensures RelaFor(d, symbols, r, Rela(r.offset, index, r.rType, r.addend))
  {
    hide WrapI64, Names;
  }

  class Folder {
    const defs: Definitions
    const names: seq<string>
    const nobits: seq<bool>
    var data: seq<seq<byte>>
    var relas: seq<seq<Rela>>
    var symbols: seq<Symbol>
    var symIndex: map<string, nat>
    var sectionSym: map<nat, nat>

    ghost predicate Valid()
      reads this
    {
      && |data| == |relas| == |nobits| == |names|
      && DefinedWithin(defs, |names|)
      && IndexOk(defs, symbols, symIndex, sectionSym)
      && RelasOk(relas, |symbols|)
    }

    /** Every exported label has a symbol. */
    ghost predicate Entered()
      reads this
    {
      forall name <- defs.labels :: name in defs.exported ==> name in symIndex
    }

    constructor (defs: Definitions, names: seq<string>, nobits: seq<bool>, data: seq<seq<byte>>)
      requires |names| == |nobits| == |data| && DefinedWithin(defs, |names|)
      ensures Valid()
      ensures this.defs == defs && this.names == names && this.nobits == nobits && this.data == data
      ensures relas == seq(|data|, _ => []) && symbols == [] && symIndex == map[]
    {
      this.defs, this.names, this.nobits, this.data := defs, names, nobits, data;
      relas := seq(|data|, _ => []);
      symbols, symIndex, sectionSym := [], map[], map[];
    }

    /** Enter a symbol for each visible defined label: `.L` temporaries stay out unless exported. */
    method AddLabels(order: seq<string>)
      requires Valid() && forall k :: 0 <= k < |order| ==> order[k] in defs.labels
      modifies this
      ensures Valid() && data == old(data) && relas == old(relas)
      ensures symbols == old(symbols) + VisibleSymbols(defs, order)
      ensures old(symIndex).Keys <= symIndex.Keys
      ensures forall k :: 0 <= k < |order| && !IsHidden(defs, order[k]) ==> order[k] in symIndex
    {
      hide Names, IndexOk, RelasOk, DefinedWithin;
      var k := 0;
      ghost var start := symbols;
      while k < |order|
        invariant 0 <= k <= |order|
        invariant Valid() && data == old(data) && relas == old(relas) && symbols == start + VisibleSymbols(defs, order[..k])
        invariant old(symIndex).Keys <= symIndex.Keys
        invariant forall j :: 0 <= j < k && !IsHidden(defs, order[j]) ==> order[j] in symIndex
      {
        var name := order[k];
        assert order[..k + 1][..k] == order[..k];
        if !IsHidden(defs, name) {
          var (s, off) := defs.labels[name];
          var symbol := Symbol(name, false, InSection(s), off);
          LabelNamed(defs, name, symbol);
          NameEntered(defs, symbols, symIndex, sectionSym, name, symbol);
          RelasKept(relas, |symbols|, |symbols| + 1);
          symIndex := symIndex[name := |symbols|];
          symbols := symbols + [symbol];
        }
        k := k + 1;
      }
      assert order[..k] == order;
    }

    /** Index of the section symbol, synthesised on first use. */
    method SectionSymbol(section: nat) returns (index: nat)
      requires Valid() && section < |names|
      modifies this
      ensures Valid() && data == old(data) && relas == old(relas) && symIndex == old(symIndex)
      ensures old(symbols) <= symbols
      ensures index < |symbols| && IsSectionSymbol(symbols[index], section)
    {
      hide Names, RelasOk, DefinedWithin;
      if section in sectionSym {
        index := sectionSym[section];
      } else {
        index := |symbols|;
        SectionEntered(defs, symbols, symIndex, sectionSym, section, Symbol(names[section], true, InSection(section), 0));
        RelasKept(relas, |symbols|, |symbols| + 1);
        symbols := symbols + [Symbol(names[section], true, InSection(section), 0)];
        sectionSym := sectionSym[section := index];
      }
    }

    /** Index of an undefined name, entered on first use. */
    method ExternalSymbol(name: string) returns (index: nat)
      requires Valid() && Target(defs, name).None?
      modifies this
      ensures Valid() && data == old(data) && relas == old(relas)
      ensures old(symbols) <= symbols && old(symIndex).Keys <= symIndex.Keys
      ensures index < |symbols| && Names(defs, symbols[index], name)
    {
      hide RelasOk, DefinedWithin;
      if name in symIndex {
        index := symIndex[name];
      } else {
        index := |symbols|;
        NameEntered(defs, symbols, symIndex, sectionSym, name, Symbol(name, false, Undef, 0));
        RelasKept(relas, |symbols|, |symbols| + 1);
        symbols := symbols + [Symbol(name, false, Undef, 0)];
        symIndex := symIndex[name := index];
      }
    }

    /** Settle one reference of section `s`. */
    method FoldOne(s: nat, r: Reloc) returns (e: Option<FoldError>)
      requires Valid() && s < |data|
      modifies this
      ensures Valid() && old(symbols) <= symbols && old(symIndex).Keys <= symIndex.Keys
      ensures e == Refusal(defs, nobits[s], |old(data)[s]|, old(symIndex).Keys, s, r)
      ensures e.None? ==>
                && |data| == |old(data)| && |data[s]| == |old(data[s])|
                && (forall q :: 0 <= q < |data| && q != s ==> data[q] == old(data[q]) && relas[q] == old(relas[q]))
      ensures e.None? && PatchesInPlace(defs, s, r) ==>
                && var disp := Target(defs, r.sym).value.1 + r.addend - r.offset;
                && IsI32(disp) && r.offset + 4 <= |data[s]|
                && data[s] == old(data[s])[..r.offset] + LE(disp, 4) + old(data[s])[r.offset + 4..]
                && relas[s] == old(relas[s])
      ensures e.None? && !PatchesInPlace(defs, s, r) ==>
                && data == old(data)
                && |relas[s]| == |old(relas[s])| + 1 && relas[s][..|old(relas[s])|] == old(relas[s])
                && RelaFor(defs, symbols, r, relas[s][|old(relas[s])|])
    {
      hide WrapI64, LE, RelasOk, RelaFor, IsSectionSymbol, Names, DefinedWithin, IndexOk;
      TargetWithin(defs, |names|, r.sym);
      var index: nat, rType, addend := 0, r.rType, r.addend;
      match Target(defs, r.sym) {
        case Some((t, off, true)) =>
          if (r.rType == R_X86_64_PC32 || r.rType == R_X86_64_PLT32) && t == s {
            var disp := off + r.addend - r.offset;
            if !IsI32(disp) {
              return Some(DisplacementOverflow(r.sym));
            }
            if r.offset + 4 > |data[s]| {
              return Some(PatchInNobits(r.sym));
            }
            PatchedSize(data[s], r.offset, disp);
            data := data[s := data[s][..r.offset] + LE(disp, 4) + data[s][r.offset + 4..]];
            return None;
          }
          index := SectionSymbol(t);
          rType := if r.rType == R_X86_64_PLT32 then R_X86_64_PC32 else r.rType;
          addend := WrapI64(WrapI64(off) + r.addend);
          LocalEntry(defs, symbols, r, index);
        case Some((_, _, false)) =>
          if r.sym !in symIndex {
            return Some(MissingSymbol(r.sym));
          }
          index := symIndex[r.sym];
          IndexNames(defs, symbols, symIndex, sectionSym, r.sym);
          NamedEntry(defs, symbols, r, index);
        case None =>
          index := ExternalSymbol(r.sym);
          NamedEntry(defs, symbols, r, index);
      }
      if nobits[s] {
        return Some(RelocationInNobits(r.sym));
      }
      RelaAdded(relas, |symbols|, s, Rela(r.offset, index, rType, addend));
      relas := relas[s := relas[s] + [Rela(r.offset, index, rType, addend)]];
      return None;
    }

    /** Settle the references of section `s`, in order. */
    method FoldSection(s: nat, relocs: seq<Reloc>) returns (e: Option<FoldError>)
      requires Valid() && Entered() && s < |data| && relas[s] == [] && Disjoint(relocs)
      requires !nobits[s] ==> InBounds(relocs, |data[s]|)
      modifies this
      ensures Valid() && Entered() && old(symbols) <= symbols
      ensures e.None? ==> forall k :: 0 <= k < |relocs| ==> Refusal(defs, nobits[s], |old(data)[s]|, defs.exported, s, relocs[k]).None?
      ensures e.Some? ==> exists k :: 0 <= k < |relocs| && e == Refusal(defs, nobits[s], |old(data)[s]|, defs.exported, s, relocs[k])
      ensures e.None? ==>
                && |data| == |old(data)| && |data[s]| == |old(data[s])|
                && (forall q :: 0 <= q < |data| && q != s ==> data[q] == old(data[q]) && relas[q] == old(relas[q]))
                && SectionSettled(defs, data[s], relas[s], symbols, s, relocs, |relocs|)
                && KeptOutside(old(data[s]), data[s], relocs, |relocs|)
    {
      hide RelaFor, Refusal, IndexOk, RelasOk, DefinedWithin, SectionSettled, KeptOutside;
      NothingSettled(defs, data[s], symbols, s, relocs);
      var k := 0;
      while k < |relocs|
        invariant 0 <= k <= |relocs|
        invariant Valid() && Entered() && old(symbols) <= symbols
        invariant forall j :: 0 <= j < k ==> Refusal(defs, nobits[s], |old(data)[s]|, defs.exported, s, relocs[j]).None?
        invariant |data| == |old(data)| && |data[s]| == |old(data[s])|
        invariant forall q :: 0 <= q < |data| && q != s ==> data[q] == old(data[q]) && relas[q] == old(relas[q])
        invariant SectionSettled(defs, data[s], relas[s], symbols, s, relocs, k)
        invariant KeptOutside(old(data[s]), data[s], relocs, k)
      {
        ghost var data0, relas0, symbols0 := data[s], relas[s], symbols;
        RefusalKnown(defs, nobits[s], |data[s]|, symIndex.Keys, s, relocs[k]);
        e := FoldOne(s, relocs[k]);
        if e.Some? {
          return;
        }
        if PatchesInPlace(defs, s, relocs[k]) {
          PatchStep(defs, data0, data[s], relas0, symbols0, symbols, s, relocs, k);
        } else {
          RelaStep(defs, data0, relas0, relas[s], symbols0, symbols, s, relocs, k);
        }
        KeptStep(old(data[s]), data0, data[s], relocs, k);
        k := k + 1;
      }
      return None;
    }

    /** The whole object: every section's references, in section order. */
    method FoldAll(relocs: seq<seq<Reloc>>) returns (e: Option<FoldError>)
      requires Valid() && Entered() && |relocs| == |data|
      requires forall s :: 0 <= s < |data| ==>
                 relas[s] == [] && Disjoint(relocs[s]) && (!nobits[s] ==> InBounds(relocs[s], |data[s]|))
      modifies this
      ensures Valid() && old(symbols) <= symbols
      ensures e.Some? ==> exists s, k :: 0 <= s < |relocs| && 0 <= k < |relocs[s]|
                            && e == Refusal(defs, nobits[s], |old(data)[s]|, defs.exported, s, relocs[s][k])
      ensures e.None? ==> forall s, k :: 0 <= s < |relocs| && 0 <= k < |relocs[s]| ==>
                            Refusal(defs, nobits[s], |old(data)[s]|, defs.exported, s, relocs[s][k]).None?
      ensures e.None? ==>
                && |data| == |old(data)|
                && forall s :: 0 <= s < |data| ==>
                     && |data[s]| == |old(data[s])|
                     && SectionSettled(defs, data[s], relas[s], symbols, s, relocs[s], |relocs[s]|)
                     && KeptOutside(old(data[s]), data[s], relocs[s], |relocs[s]|)
    {
      hide Refusal, SectionSettled, KeptOutside, Disjoint, IndexOk, RelasOk, DefinedWithin;
      var s := 0;
      while s < |relocs|
        invariant 0 <= s <= |relocs|
        invariant Valid() && Entered() && old(symbols) <= symbols && |data| == |old(data)|
        invariant forall q, k :: 0 <= q < s && 0 <= k < |relocs[q]| ==>
                    Refusal(defs, nobits[q], |old(data)[q]|, defs.exported, q, relocs[q][k]).None?
        invariant forall q :: s <= q < |data| ==> data[q] == old(data[q]) && relas[q] == old(relas[q])
        invariant forall q :: 0 <= q < s ==>
                    && |data[q]| == |old(data[q])|
                    && SectionSettled(defs, data[q], relas[q], symbols, q, relocs[q], |relocs[q]|)
                    && KeptOutside(old(data[q]), data[q], relocs[q], |relocs[q]|)
      {
        ghost var symbols0 := symbols;
        e := FoldSection(s, relocs[s]);
        if e.Some? {
          return;
        }
        forall q | 0 <= q < s
          ensures SectionSettled(defs, data[q], relas[q], symbols, q, relocs[q], |relocs[q]|)
        {
          MoreSymbols(defs, data[q], relas[q], symbols0, symbols, q, relocs[q], |relocs[q]|);
        }
        s := s + 1;
      }
      return None;
    }
  }

  /** With every exported label entered, no symbol is ever missing. */
  lemma RefusalKnown(d: Definitions, nobits: bool, size: nat, known: set<string>, section: nat, r: Reloc)
    requires forall name <- d.labels :: name in d.exported ==> name in known
    ensures Refusal(d, nobits, size, known, section, r) == Refusal(d, nobits, size, d.exported, section, r)
    ensures Refusal(d, nobits, size, known, section, r) != Some(MissingSymbol(r.sym))
  {
  }

  // ---- what one step keeps -----------------------------------------------------------------------

  predicate InBounds(relocs: seq<Reloc>, size: nat) {
    forall k :: 0 <= k < |relocs| ==> relocs[k].offset + FieldWidth(relocs[k].rType) <= size
  }

  /** The first k references are settled, and every relocation entry belongs to one of them. */
  ghost predicate SectionSettled(d: Definitions, data: seq<byte>, relas: seq<Rela>, symbols: seq<Symbol>, section: nat,
                                 relocs: seq<Reloc>, k: nat)
  {
    && k <= |relocs|
    && (forall j :: 0 <= j < k ==> Settled(d, data, relas, symbols, section, relocs[j]))
    && (forall m :: 0 <= m < |relas| ==> FromReference(relas[m].offset, section, d, relocs, k))
  }

  ghost predicate FromReference(offset: nat, section: nat, d: Definitions, relocs: seq<Reloc>, k: nat) {
    exists j :: 0 <= j < k <= |relocs| && relocs[j].offset == offset && !PatchesInPlace(d, section, relocs[j])
  }

  /** Bytes outside the first k fields are untouched. */
  ghost predicate KeptOutside(before: seq<byte>, after: seq<byte>, relocs: seq<Reloc>, k: nat) {
    && |before| == |after| && k <= |relocs|
    && forall p :: 0 <= p < |before| && !InField(relocs, k, p) ==> after[p] == before[p]
  }

  ghost predicate InField(relocs: seq<Reloc>, k: nat, p: nat) {
    exists j :: 0 <= j < k <= |relocs| && relocs[j].offset <= p < relocs[j].offset + FieldWidth(relocs[j].rType)
  }

  lemma InFieldGrows(relocs: seq<Reloc>, k: nat, p: nat)
    requires k < |relocs| && InField(relocs, k, p)
    ensures InField(relocs, k + 1, p)
  {
    var j :| 0 <= j < k && relocs[j].offset <= p < relocs[j].offset + FieldWidth(relocs[j].rType);
    assert relocs[j].offset <= p;
  }

  lemma NothingSettled(d: Definitions, data: seq<byte>, symbols: seq<Symbol>, section: nat, relocs: seq<Reloc>)
    ensures SectionSettled(d, data, [], symbols, section, relocs, 0) && KeptOutside(data, data, relocs, 0)
  {
  }

  lemma KeptStep(before: seq<byte>, mid: seq<byte>, after: seq<byte>, relocs: seq<Reloc>, k: nat)
    requires k < |relocs| && KeptOutside(before, mid, relocs, k) && |after| == |mid|
    requires forall p :: 0 <= p < |mid| && !(relocs[k].offset <= p < relocs[k].offset + FieldWidth(relocs[k].rType)) ==> after[p] == mid[p]
    ensures KeptOutside(before, after, relocs, k + 1)
  {
    forall p | 0 <= p < |before| && !InField(relocs, k + 1, p) ensures after[p] == before[p] {
      if InField(relocs, k, p) {
        InFieldGrows(relocs, k, p);
        assert false;
      }
    }
  }

  lemma SymbolsExtend(d: Definitions, data: seq<byte>, relas: seq<Rela>, symbols: seq<Symbol>, more: seq<Symbol>, section: nat, r: Reloc)
    requires Settled(d, data, relas, symbols, section, r) && symbols <= more
    ensures Settled(d, data, relas, more, section, r)
  {
  }

  lemma MoreSymbols(d: Definitions, data: seq<byte>, relas: seq<Rela>, symbols: seq<Symbol>, more: seq<Symbol>, section: nat,
                    relocs: seq<Reloc>, k: nat)
    requires SectionSettled(d, data, relas, symbols, section, relocs, k) && symbols <= more
    ensures SectionSettled(d, data, relas, more, section, relocs, k)
  {
    forall j | 0 <= j < k ensures Settled(d, data, relas, more, section, relocs[j]) {
      SymbolsExtend(d, data, relas, symbols, more, section, relocs[j]);
    }
  }

  lemma ReferenceGrows(offset: nat, section: nat, d: Definitions, relocs: seq<Reloc>, k: nat)
    requires k < |relocs| && FromReference(offset, section, d, relocs, k)
    ensures FromReference(offset, section, d, relocs, k + 1)
  {
    var j :| 0 <= j < k && relocs[j].offset == offset && !PatchesInPlace(d, section, relocs[j]);
    assert relocs[j].offset == offset;
  }

  /** Patching one field settles its reference. */
  lemma PatchSettled(d: Definitions, data0: seq<byte>, data: seq<byte>, relas: seq<Rela>, symbols: seq<Symbol>, section: nat, r: Reloc)
    requires PatchesInPlace(d, section, r) && FindRela(relas, r.offset).None?
    requires var disp := Target(d, r.sym).value.1 + r.addend - r.offset;
             && IsI32(disp) && r.offset + 4 <= |data0|
             && data == data0[..r.offset] + LE(disp, 4) + data0[r.offset + 4..]
    ensures Settled(d, data, relas, symbols, section, r)
  {
    hide LE, IsI32, FindRela;
    assert data[r.offset..r.offset + 4] == LE(Target(d, r.sym).value.1 + r.addend - r.offset, 4);
  }

  /** And leaves a reference with another field settled. */
  lemma StillSettled(d: Definitions, data0: seq<byte>, data: seq<byte>, relas: seq<Rela>, symbols: seq<Symbol>, section: nat,
                     mine: Reloc, r: Reloc)
    requires Settled(d, data0, relas, symbols, section, mine) && Apart(mine, r) && PatchesInPlace(d, section, r)
    requires var disp := Target(d, r.sym).value.1 + r.addend - r.offset;
             && r.offset + 4 <= |data0| && data == data0[..r.offset] + LE(disp, 4) + data0[r.offset + 4..]
    ensures Settled(d, data, relas, symbols, section, mine)
  {
    hide LE, IsI32, FindRela, RelaFor;
    if PatchesInPlace(d, section, mine) {
      SliceOutside(data0, data, r.offset, mine.offset);
    }
  }

  lemma PatchStep(d: Definitions, data0: seq<byte>, data: seq<byte>, relas: seq<Rela>, symbols0: seq<Symbol>, symbols: seq<Symbol>,
                  section: nat, relocs: seq<Reloc>, k: nat)
    requires k < |relocs| && Disjoint(relocs) && PatchesInPlace(d, section, relocs[k])
    requires SectionSettled(d, data0, relas, symbols0, section, relocs, k) && symbols0 <= symbols
    requires var r := relocs[k];
             var disp := Target(d, r.sym).value.1 + r.addend - r.offset;
             && IsI32(disp) && r.offset + 4 <= |data0|
             && data == data0[..r.offset] + LE(disp, 4) + data0[r.offset + 4..]
    ensures SectionSettled(d, data, relas, symbols, section, relocs, k + 1)
  {
    hide Settled, PatchesInPlace, LE, FromReference, Target, IsI32, FindRela, Apart;
    var r := relocs[k];
    forall j | 0 <= j < k ensures Settled(d, data, relas, symbols, section, relocs[j]) {
      assert Apart(relocs[j], r);
      SymbolsExtend(d, data0, relas, symbols0, symbols, section, relocs[j]);
      StillSettled(d, data0, data, relas, symbols, section, relocs[j], r);
    }
    NotReferencedYet(d, data0, relas, symbols0, section, relocs, k);
    PatchSettled(d, data0, data, relas, symbols, section, r);
    forall m | 0 <= m < |relas| ensures FromReference(relas[m].offset, section, d, relocs, k + 1) {
      ReferenceGrows(relas[m].offset, section, d, relocs, k);
    }
  }

  lemma NotReferencedYet(d: Definitions, data: seq<byte>, relas: seq<Rela>, symbols: seq<Symbol>, section: nat,
                         relocs: seq<Reloc>, k: nat)
    requires k < |relocs| && Disjoint(relocs) && SectionSettled(d, data, relas, symbols, section, relocs, k)
    ensures FindRela(relas, relocs[k].offset).None?
  {
    forall m | 0 <= m < |relas| ensures relas[m].offset != relocs[k].offset {
      assert FromReference(relas[m].offset, section, d, relocs, k);
      var j :| 0 <= j < k && relocs[j].offset == relas[m].offset;
      assert Apart(relocs[j], relocs[k]);
    }
    FindRelaIn(relas, relocs[k].offset);
  }

  lemma SliceOutside(data0: seq<byte>, data: seq<byte>, at: nat, p: nat)
    requires at + 4 <= |data0| == |data| && p + 4 <= |data| && (p + 4 <= at || at + 4 <= p)
    requires data[..at] == data0[..at] && data[at + 4..] == data0[at + 4..]
    ensures data[p..p + 4] == data0[p..p + 4]
  {
    forall i | p <= i < p + 4 ensures data[i] == data0[i] {
      if i < at {
        assert data[i] == data[..at][i];
      } else {
        assert data[i] == data[at + 4..][i - at - 4];
      }
    }
  }

  lemma RelaStep(d: Definitions, data: seq<byte>, relas0: seq<Rela>, relas: seq<Rela>, symbols0: seq<Symbol>, symbols: seq<Symbol>,
                 section: nat, relocs: seq<Reloc>, k: nat)
    requires k < |relocs| && Disjoint(relocs) && !PatchesInPlace(d, section, relocs[k])
    requires SectionSettled(d, data, relas0, symbols0, section, relocs, k) && symbols0 <= symbols
    requires |relas| == |relas0| + 1 && relas[..|relas0|] == relas0
    requires RelaFor(d, symbols, relocs[k], relas[|relas0|])
    ensures SectionSettled(d, data, relas, symbols, section, relocs, k + 1)
  {
    hide IsI32, LE, FindRela, WrapI64;
    var r, rela := relocs[k], relas[|relas0|];
    assert relas == relas0 + [rela];
    forall j | 0 <= j < k ensures Settled(d, data, relas, symbols, section, relocs[j]) {
      assert Apart(relocs[j], r);
      SymbolsExtend(d, data, relas0, symbols0, symbols, section, relocs[j]);
      FindAppended(relas0, rela, relocs[j].offset);
    }
    FindAppended(relas0, rela, r.offset);
    NotReferencedYet(d, data, relas0, symbols0, section, relocs, k);
    forall m | 0 <= m < |relas| ensures FromReference(relas[m].offset, section, d, relocs, k + 1) {
      if m < |relas0| {
        assert relas[m] == relas0[m];
        ReferenceGrows(relas[m].offset, section, d, relocs, k);
      } else {
        assert relocs[k].offset == relas[m].offset;
      }
    }
  }

  /**
    Folding preserves meaning: in the folded section every supported reference links, for every
    choice of section bases and external addresses, to the value its own symbol relocation would store.
   */
  lemma FoldingPreservesMeaning(d: Definitions, data: seq<byte>, relas: seq<Rela>, symbols: seq<Symbol>, section: nat,
                                relocs: seq<Reloc>, k: nat, link: Link)
    requires SectionSettled(d, data, relas, symbols, section, relocs, |relocs|)
    requires forall m :: 0 <= m < |relas| ==> relas[m].symbol < |symbols|
    requires k < |relocs| && IsSupported(relocs[k].rType)
    requires InBounds(relocs, |data|)
    ensures Linked(data, relas, symbols, link, section, relocs[k].offset, FieldWidth(relocs[k].rType))
            == Wanted(d, link, section, relocs[k]) % Pow256(FieldWidth(relocs[k].rType))
  {
    SettledMeaning(d, data, relas, symbols, section, relocs[k], link);
  }

  predicate IsHidden(d: Definitions, name: string) {
    |name| >= 2 && name[..2] == ".L" && name !in d.exported
  }
}
