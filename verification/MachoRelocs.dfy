/**
  Mach-O relocations on arm64 (src/assemble.rs, src/macho.rs): fixups record one relocation or a pair,
  the writer sorts a section's relocations by descending offset, and a scan checks every pair.
 */
module MachoRelocs {
  import opened Words
  import opened Expr
  import opened Sorting

  const UNSIGNED: nat := 0
  const SUBTRACTOR: nat := 1
  const BRANCH26: nat := 2
  const PAGE21: nat := 3
  const PAGEOFF12: nat := 4
  const GOT_LOAD_PAGE21: nat := 5
  const GOT_LOAD_PAGEOFF12: nat := 6
  const POINTER_TO_GOT: nat := 7
  const TLVP_LOAD_PAGE21: nat := 8
  const TLVP_LOAD_PAGEOFF12: nat := 9
  const ADDEND: nat := 10

  datatype Target = Named(symbol: string) | Raw(value: nat)

  datatype Reloc<T> = Reloc(offset: nat, target: T, length: nat, kind: nat, pcrel: bool, external: bool)

  /** A relocation as fixups record it, and as the object file holds it: with a symbol table index. */
  type Pending = Reloc<Target>
  type Relocation = Reloc<nat>

  datatype FixupError = OutOfBounds | AddendRange | WrongForm | MissingSymbol(symbol: string)

  // ---- recorded groups ---------------------------------------------------------------

  predicate TakesAddend(kind: nat) { kind == BRANCH26 || kind == PAGE21 || kind == PAGEOFF12 }

  /** One relocation that stands alone, or a pair at one offset whose first entry modifies the second. */
  predicate GroupOk<T>(g: seq<Reloc<T>>) {
    || (|g| == 1 && g[0].kind != ADDEND && g[0].kind != SUBTRACTOR)
    || (|g| == 2 && g[0].offset == g[1].offset && g[0].kind == ADDEND && TakesAddend(g[1].kind))
    || (|g| == 2 && g[0].offset == g[1].offset && g[0].kind == SUBTRACTOR && g[1].kind == UNSIGNED
        && g[0].length == g[1].length)
  }

  function Flatten<T>(gs: seq<seq<T>>): seq<T> {
    if gs == [] then [] else gs[0] + Flatten(gs[1..])
  }

  lemma {:induction false} FlattenSnoc<T>(gs: seq<seq<T>>, g: seq<T>)
    ensures Flatten(gs + [g]) == Flatten(gs) + g
  {
    if gs == [] {
      assert gs + [g] == [g] && [g][1..] == [];
    } else {
      assert (gs + [g])[1..] == gs[1..] + [g];
      FlattenSnoc(gs[1..], g);
    }
  }

  /** The combinations of r_pcrel, r_length and r_extern the writer accepts for each type. */
  predicate FormOk<T>(r: Reloc<T>) {
    if r.kind == UNSIGNED then !r.pcrel && (r.length == 2 || r.length == 3)
    else if r.kind == SUBTRACTOR then !r.pcrel && r.external && (r.length == 2 || r.length == 3)
    else if r.kind == BRANCH26 || r.kind == PAGE21 || r.kind == GOT_LOAD_PAGE21 || r.kind == TLVP_LOAD_PAGE21 then
      r.pcrel && r.external && r.length == 2
    else if r.kind == PAGEOFF12 || r.kind == GOT_LOAD_PAGEOFF12 || r.kind == TLVP_LOAD_PAGEOFF12 then
      !r.pcrel && r.external && r.length == 2
    else if r.kind == ADDEND then !r.pcrel && r.length == 2 && !r.external
    else if r.kind == POINTER_TO_GOT then r.external && ((r.pcrel && r.length == 2) || (!r.pcrel && r.length == 3))
    else false
  }

  /** The 24-bit two's complement field of an addend relocation. */
  function EncodeAddend(addend: int): Option<nat> {
    if -0x80_0000 <= addend <= 0x7F_FFFF then Some(addend % 0x100_0000) else None
  }

  /** The linker reads back the addend, and exactly the 24-bit range is accepted. */
  lemma AddendRoundTrip(addend: int)
    ensures EncodeAddend(addend).Some? <==> -0x80_0000 <= addend <= 0x7F_FFFF
    ensures EncodeAddend(addend).Some? ==>
              EncodeAddend(addend).value < 0x100_0000 && Signed(EncodeAddend(addend).value, 0x100_0000) == addend
  {
  }

  // ---- what a recorded group makes the linker store --------------------------------------

  function TargetMeaning(t: Target, symbols: SymbolTable, env: Environment): int {
    if t.Named? then SymbolMeaning(symbols, env, t.symbol) else t.value
  }

  /** The data-pointer relocations of <mach-o/arm64/reloc.h>: the field holds the addend. */
  function LinkedField(g: seq<Pending>, field: int, symbols: SymbolTable, env: Environment): int {
    if |g| == 1 && g[0].kind == UNSIGNED then field + TargetMeaning(g[0].target, symbols, env)
    else if |g| == 1 && g[0].kind == POINTER_TO_GOT && g[0].target.Named? then
      field + env.got(g[0].target.symbol) - if g[0].pcrel then env.location else 0
    else if |g| == 2 && g[0].kind == SUBTRACTOR && g[1].kind == UNSIGNED then
      field + TargetMeaning(g[1].target, symbols, env) - TargetMeaning(g[0].target, symbols, env)
    else field
  }

  /** The field at the offset, with its group, means the classified form modulo the field width. */
  ghost predicate FieldMeans(data: seq<byte>, offset: nat, width: nat, g: seq<Pending>, form: ClassifiedExpr)
  {
    && offset + width <= |data|
    && forall symbols: SymbolTable, env: Environment ::
         LinkedField(g, FromLE(data[offset..offset + width]), symbols, env) % Pow256(width) == FormValue(form, symbols, env) % Pow256(width)
  }

  function InPlace(form: ClassifiedExpr): int {
    match form
    case AbsoluteForm(v) => v
    case UnsignedForm(v) => v
    case Relocatable(_, addend) => addend
    case Difference(_, _, addend) => addend
    case PointerToGot(_, addend, _) => addend
  }

  /** The relocations of a data field of 2^length bytes. */
  function DataGroup(offset: nat, length: nat, form: ClassifiedExpr): seq<Pending> {
    match form
    case AbsoluteForm(_) => []
    case UnsignedForm(_) => []
    case Relocatable(s, _) => [Reloc(offset, Named(s), length, UNSIGNED, false, true)]
    case Difference(m, s, _) =>
      [Reloc(offset, Named(s), length, SUBTRACTOR, false, true), Reloc(offset, Named(m), length, UNSIGNED, false, true)]
    case PointerToGot(s, _, pcrel) => [Reloc(offset, Named(s), length, POINTER_TO_GOT, pcrel, true)]
  }

  /** The group adds to the field whatever the form has beside its stored part. */
  lemma GroupAdds(offset: nat, length: nat, form: ClassifiedExpr, field: int, symbols: SymbolTable, env: Environment)
    ensures LinkedField(DataGroup(offset, length, form), field, symbols, env) == field + FormValue(form, symbols, env) - InPlace(form)
  {
    hide SymbolMeaning;
  }

  lemma DataFieldMeans(data: seq<byte>, offset: nat, width: nat, length: nat, form: ClassifiedExpr)
    requires SliceAt(data, offset, LE(InPlace(form), width))
    ensures FieldMeans(data, offset, width, DataGroup(offset, length, form), form)
  {
    hide LE, FromLE, Pow256;
    var g := DataGroup(offset, length, form);
    FieldRoundTrip(InPlace(form), width);
    forall symbols: SymbolTable, env: Environment
      ensures LinkedField(g, FromLE(data[offset..offset + width]), symbols, env) % Pow256(width) == FormValue(form, symbols, env) % Pow256(width)
    {
      var v, w := InPlace(form), FromLE(data[offset..offset + width]);
      var rest := FormValue(form, symbols, env) - v;
      GroupAdds(offset, length, form, w, symbols, env);
      ReducedAddend(v, rest, Pow256(width));
    }
  }

  lemma ReducedAddend(v: int, rest: int, m: nat)
    requires m > 0
    ensures (v % m + rest) % m == (v + rest) % m
  {
    var k := v / m;
    assert v == k * m + v % m;
    ModAddMultiple(v % m + rest, k, m);
  }

  // ---- all data fields of a section ------------------------------------------------------

  /** A data field to patch: eight bytes wide or four. */
  datatype DataFixup = DataFixup(offset: nat, wide: bool, form: ClassifiedExpr)

  function FieldSize(f: DataFixup): nat { if f.wide then 8 else 4 }

  function FixupGroup(f: DataFixup): seq<Pending> { DataGroup(f.offset, if f.wide then 3 else 2, f.form) }

  function GroupsOf(fixups: seq<DataFixup>): seq<Pending> {
    if fixups == [] then [] else GroupsOf(fixups[..|fixups| - 1]) + FixupGroup(fixups[|fixups| - 1])
  }

  /** The field lies inside the section and its form has a relocation of that size. */
  predicate Resolvable(f: DataFixup, size: nat) {
    && f.offset + FieldSize(f) <= size
    && if f.wide then !(f.form.PointerToGot? && f.form.pcrel) else f.form.AbsoluteForm? || (f.form.PointerToGot? && f.form.pcrel)
  }

  lemma GroupsNext(start: seq<Pending>, fixups: seq<DataFixup>, k: nat)
    requires k < |fixups|
    ensures start + GroupsOf(fixups[..k + 1]) == start + GroupsOf(fixups[..k]) + FixupGroup(fixups[k])
  {
    hide FixupGroup;
    assert fixups[..k + 1][..k] == fixups[..k];
  }

  lemma SameLength(before: seq<byte>, after: seq<byte>, f: DataFixup)
    requires Patched(before, after, f.offset, FieldSize(f))
    ensures |after| == |before|
  {
  }

  predicate Separate(a: DataFixup, b: DataFixup) {
    a.offset + FieldSize(a) <= b.offset || b.offset + FieldSize(b) <= a.offset
  }

  /** No two fields overlap. */
  predicate FieldsApart(fixups: seq<DataFixup>) {
    forall i, j :: 0 <= i < j < |fixups| ==> Separate(fixups[i], fixups[j])
  }

  /** Bytes outside the field are the same. */
  predicate Patched(before: seq<byte>, after: seq<byte>, offset: nat, width: nat) {
    |after| == |before| && forall k :: 0 <= k < |after| && !(offset <= k < offset + width) ==> after[k] == before[k]
  }

  ghost predicate FixupMeans(data: seq<byte>, f: DataFixup) {
    FieldMeans(data, f.offset, FieldSize(f), FixupGroup(f), f.form)
  }

  /** The first k fields mean their forms. */
  ghost predicate FieldsMean(data: seq<byte>, fixups: seq<DataFixup>, k: nat)
    requires k <= |fixups|
  {
    forall q :: 0 <= q < k ==> FixupMeans(data, fixups[q])
  }

  predicate Touches(f: DataFixup, at: nat) { f.offset <= at < f.offset + FieldSize(f) }

  /** Bytes outside the first k fields are the same. */
  predicate OthersKept(before: seq<byte>, after: seq<byte>, fixups: seq<DataFixup>, k: nat)
    requires k <= |fixups|
  {
    && |after| == |before|
    && forall p :: 0 <= p < |after| && (forall q :: 0 <= q < k ==> !Touches(fixups[q], p)) ==> after[p] == before[p]
  }

  lemma NoneResolved(data: seq<byte>, fixups: seq<DataFixup>)
    ensures FieldsMean(data, fixups, 0) && OthersKept(data, data, fixups, 0) && GroupsOf(fixups[..0]) == []
  {
  }

  /** What a field means depends on its own bytes only. */
  lemma MeansKept(before: seq<byte>, after: seq<byte>, offset: nat, width: nat, g: seq<Pending>, form: ClassifiedExpr)
    requires FieldMeans(before, offset, width, g, form) && |after| == |before|
    requires forall p :: offset <= p < offset + width ==> after[p] == before[p]
    ensures FieldMeans(after, offset, width, g, form)
  {
    hide LinkedField, FormValue;
    assert after[offset..offset + width] == before[offset..offset + width];
  }

  lemma FieldAdded(start: seq<byte>, before: seq<byte>, after: seq<byte>, fixups: seq<DataFixup>, k: nat)
    requires k < |fixups| && FieldsApart(fixups) && FieldsMean(before, fixups, k) && OthersKept(start, before, fixups, k)
    requires Patched(before, after, fixups[k].offset, FieldSize(fixups[k])) && FixupMeans(after, fixups[k])
    ensures FieldsMean(after, fixups, k + 1) && OthersKept(start, after, fixups, k + 1)
  {
    hide FieldMeans, DataGroup, FieldSize;
    forall q | 0 <= q < k ensures FixupMeans(after, fixups[q]) {
      assert FixupMeans(before, fixups[q]) && Separate(fixups[q], fixups[k]);
      var f := fixups[q];
      FieldInside(before, f);
      MeansKept(before, after, f.offset, FieldSize(f), FixupGroup(f), f.form);
    }
    forall p | 0 <= p < |after| && (forall q :: 0 <= q < k + 1 ==> !Touches(fixups[q], p)) ensures after[p] == start[p] {
      assert !Touches(fixups[k], p);
    }
  }

  lemma FieldInside(data: seq<byte>, f: DataFixup)
    requires FixupMeans(data, f)
    ensures f.offset + FieldSize(f) <= |data|
  {
  }

  // ---- recording -----------------------------------------------------------------------

  /** A symbol relocation with an addend: the addend entry leads. */
  function SymbolGroup(offset: nat, symbol: string, kind: nat, pcrel: bool, addend: int): seq<Pending>
    requires addend == 0 || EncodeAddend(addend).Some?
  {
    (if addend == 0 then [] else [Reloc(offset, Raw(EncodeAddend(addend).value), 2, ADDEND, false, false)])
    + [Reloc(offset, Named(symbol), 2, kind, pcrel, true)]
  }

  /** An entry at the offset whose 24-bit field the linker reads as the addend. */
  predicate AddendEntry(r: Pending, offset: nat, addend: int) {
    r.offset == offset && r.kind == ADDEND && r.target.Raw? && r.target.value < 0x100_0000 && Signed(r.target.value, 0x100_0000) == addend
  }

  /** The group of a data field is well formed. */
  lemma DataGroupOk(offset: nat, length: nat, form: ClassifiedExpr)
    requires (length == 2 || length == 3) && (form.PointerToGot? ==> form.pcrel == (length == 2))
    ensures DataGroup(offset, length, form) != [] ==> GroupOk(DataGroup(offset, length, form))
    ensures forall k :: 0 <= k < |DataGroup(offset, length, form)| ==> FormOk(DataGroup(offset, length, form)[k])
  {
  }

  class Recorder {
    var data: seq<byte>
    var pending: seq<Pending>
    ghost var groups: seq<seq<Pending>>

    ghost predicate Valid()
      reads this
    {
      && pending == Flatten(groups)
      && (forall k :: 0 <= k < |groups| ==> GroupOk(groups[k]))
      && (forall k :: 0 <= k < |pending| ==> FormOk(pending[k]))
    }

    constructor (data: seq<byte>)
      ensures Valid() && this.data == data && pending == []
    {
      this.data, pending, groups := data, [], [];
    }

    method RecordPending(offset: nat, symbol: string, length: nat, kind: nat, pcrel: bool)
      modifies this`pending
      ensures pending == old(pending) + [Reloc(offset, Named(symbol), length, kind, pcrel, true)]
    {
      pending := pending + [Reloc(offset, Named(symbol), length, kind, pcrel, true)];
    }

    method RecordAddend(offset: nat, length: nat, addend: int) returns (ok: bool)
      modifies this`pending
      ensures ok <==> -0x80_0000 <= addend <= 0x7F_FFFF
      ensures ok ==> |pending| == |old(pending)| + 1 && AddendEntry(pending[|old(pending)|], offset, addend)
      ensures pending == old(pending) + if ok then [Reloc(offset, Raw(EncodeAddend(addend).value), length, ADDEND, false, false)] else []
    {
      AddendRoundTrip(addend);
      var field := EncodeAddend(addend);
      ok := field.Some?;
      if ok {
        pending := pending + [Reloc(offset, Raw(field.value), length, ADDEND, false, false)];
      }
    }

    /** A symbol relocation, led by an addend entry when the addend is not zero. */
    method RecordSymbol(offset: nat, symbol: string, kind: nat, pcrel: bool, addend: int) returns (r: Result<(), FixupError>)
      requires Valid() && kind != ADDEND && kind != SUBTRACTOR && (addend != 0 ==> TakesAddend(kind))
      requires FormOk(Reloc(offset, Named(symbol), 2, kind, pcrel, true))
      modifies this`pending, this`groups
      ensures Valid()
      ensures r.Ok? <==> addend == 0 || EncodeAddend(addend).Some?
      ensures pending == old(pending) + if r.Ok? then SymbolGroup(offset, symbol, kind, pcrel, addend) else []
    {
      hide EncodeAddend;
      ghost var g: seq<Pending> := [];
      AddendRoundTrip(addend);
      if addend != 0 {
        var ok := RecordAddend(offset, 2, addend);
        if !ok {
          return Err(AddendRange);
        }
        g := [Reloc(offset, Raw(EncodeAddend(addend).value), 2, ADDEND, false, false)];
      }
      RecordPending(offset, symbol, 2, kind, pcrel);
      g := g + [Reloc(offset, Named(symbol), 2, kind, pcrel, true)];
      FlattenSnoc(groups, g);
      assert pending == old(pending) + g;
      groups := groups + [g];
      return Ok(());
    }

    /** GOT and TLVP page relocations take no addend. */
    method ResolvePage(offset: nat, symbol: string, kind: nat, pcrel: bool, addend: int) returns (r: Result<(), FixupError>)
      requires Valid() && FormOk(Reloc(offset, Named(symbol), 2, kind, pcrel, true)) && PAGE21 <= kind <= TLVP_LOAD_PAGEOFF12
      requires kind != POINTER_TO_GOT
      modifies this`pending, this`groups
      ensures Valid()
      ensures r.Ok? <==> addend == 0 || (TakesAddend(kind) && EncodeAddend(addend).Some?)
      ensures pending == old(pending) + if r.Ok? then SymbolGroup(offset, symbol, kind, pcrel, addend) else []
    {
      if addend != 0 && !TakesAddend(kind) {
        return Err(WrongForm);
      }
      r := RecordSymbol(offset, symbol, kind, pcrel, addend);
    }

    /** The branch to a symbol of another object. */
    method ResolveExternalBranch(offset: nat, symbol: string, addend: int) returns (r: Result<(), FixupError>)
      requires Valid()
      modifies this`pending, this`groups
      ensures Valid()
      ensures r.Ok? <==> addend == 0 || EncodeAddend(addend).Some?
      ensures pending == old(pending) + if r.Ok? then SymbolGroup(offset, symbol, BRANCH26, true, addend) else []
    {
      r := RecordSymbol(offset, symbol, BRANCH26, true, addend);
    }

    method Patch(offset: nat, field: seq<byte>) returns (ok: bool)
      modifies this`data
      ensures ok == (offset + |field| <= |old(data)|)
      ensures ok ==> |data| == |old(data)| && SliceAt(data, offset, field)
                     && forall k :: 0 <= k < |data| && !(offset <= k < offset + |field|) ==> data[k] == old(data)[k]
      ensures !ok ==> data == old(data)
    {
      if offset + |field| > |data| {
        return false;
      }
      data := data[..offset] + field + data[offset + |field|..];
      return true;
    }

    method ResolveData64(offset: nat, form: ClassifiedExpr) returns (r: Result<(), FixupError>)
      requires Valid()
      modifies this
      ensures Valid() && Patched(old(data), data, offset, 8)
      ensures r.Ok? ==> pending == old(pending) + DataGroup(offset, 3, form)
                        && FieldMeans(data, offset, 8, DataGroup(offset, 3, form), form)
      ensures r.Ok? <==> offset + 8 <= |old(data)| && !(form.PointerToGot? && form.pcrel)
    {
      if form.PointerToGot? && form.pcrel {
        return Err(WrongForm);
      }
      var ok := Patch(offset, LE(InPlace(form), 8));
      if !ok {
        return Err(OutOfBounds);
      }
      DataFieldMeans(data, offset, 8, 3, form);
      RecordData(offset, 3, form);
      return Ok(());
    }

    method ResolveData32(offset: nat, form: ClassifiedExpr) returns (r: Result<(), FixupError>)
      requires Valid()
      modifies this
      ensures Valid() && Patched(old(data), data, offset, 4)
      ensures r.Ok? ==> pending == old(pending) + DataGroup(offset, 2, form)
                        && FieldMeans(data, offset, 4, DataGroup(offset, 2, form), form)
      ensures r.Ok? <==> offset + 4 <= |old(data)| && (form.AbsoluteForm? || (form.PointerToGot? && form.pcrel))
    {
      if !form.AbsoluteForm? && !(form.PointerToGot? && form.pcrel) {
        return Err(WrongForm);
      }
      var ok := Patch(offset, LE(InPlace(form), 4));
      if !ok {
        return Err(OutOfBounds);
      }
      DataFieldMeans(data, offset, 4, 2, form);
      RecordData(offset, 2, form);
      return Ok(());
    }

    method ResolveField(f: DataFixup) returns (r: Result<(), FixupError>)
      requires Valid()
      modifies this
      ensures Valid() && Patched(old(data), data, f.offset, FieldSize(f))
      ensures r.Ok? <==> Resolvable(f, |old(data)|)
      ensures r.Ok? ==> pending == old(pending) + FixupGroup(f) && FixupMeans(data, f)
    {
      hide FieldMeans, DataGroup;
      if f.wide {
        r := ResolveData64(f.offset, f.form);
      } else {
        r := ResolveData32(f.offset, f.form);
      }
    }

    /**
      All data fixups of a section, in order. On success every field means its form, each with its own
      relocations, and no other byte changed; it fails exactly when some field cannot be resolved.
     */
    method ResolveAll(fixups: seq<DataFixup>) returns (r: Result<(), FixupError>)
      requires Valid() && FieldsApart(fixups)
      modifies this
      ensures Valid()
      ensures r.Ok? <==> forall k :: 0 <= k < |fixups| ==> Resolvable(fixups[k], |old(data)|)
      ensures r.Ok? ==> pending == old(pending) + GroupsOf(fixups)
      ensures r.Ok? ==> FieldsMean(data, fixups, |fixups|) && OthersKept(old(data), data, fixups, |fixups|)
    {
      hide FixupMeans, FixupGroup, Resolvable, Patched, FieldsApart, FieldsMean, OthersKept, GroupsOf, FieldSize, Flatten, GroupOk, FormOk;
      ghost var start := pending;
      var k := 0;
      NoneResolved(data, fixups);
      while k < |fixups|
        invariant 0 <= k <= |fixups| && Valid() && |data| == |old(data)|
        invariant forall q :: 0 <= q < k ==> Resolvable(fixups[q], |data|)
        invariant pending == start + GroupsOf(fixups[..k])
        invariant FieldsMean(data, fixups, k) && OthersKept(old(data), data, fixups, k)
      {
        ghost var before := data;
        r := ResolveField(fixups[k]);
        SameLength(before, data, fixups[k]);
        if r.Err? {
          return;
        }
        GroupsNext(start, fixups, k);
        FieldAdded(old(data), before, data, fixups, k);
        k := k + 1;
      }
      assert fixups[..k] == fixups;
      return Ok(());
    }

    method RecordData(offset: nat, length: nat, form: ClassifiedExpr)
      requires Valid() && (length == 2 || length == 3) && (form.PointerToGot? ==> form.pcrel == (length == 2))
      modifies this`pending, this`groups
      ensures Valid() && pending == old(pending) + DataGroup(offset, length, form)
    {
      hide Flatten, GroupOk, FormOk;
      ghost var g := DataGroup(offset, length, form);
      DataGroupOk(offset, length, form);
      match form {
        case AbsoluteForm(_) =>
        case UnsignedForm(_) =>
        case Relocatable(symbol, _) => RecordPending(offset, symbol, length, UNSIGNED, false);
        case Difference(minuend, subtrahend, _) =>
          RecordPending(offset, subtrahend, length, SUBTRACTOR, false);
          RecordPending(offset, minuend, length, UNSIGNED, false);
        case PointerToGot(symbol, _, pcrel) => RecordPending(offset, symbol, length, POINTER_TO_GOT, pcrel);
      }
      assert pending == old(pending) + g;
      if g != [] {
        FlattenSnoc(groups, g);
        groups := groups + [g];
      }
    }
  }

  // ---- sorting keeps groups together --------------------------------------------------------

  predicate Descending<T(!new)>(a: Reloc<T>, b: Reloc<T>) { a.offset >= b.offset }

  predicate GroupsDescending<T(!new)>(a: seq<Reloc<T>>, b: seq<Reloc<T>>) {
    a == [] || (b != [] && a[0].offset >= b[0].offset)
  }

  function SortedRelocations<T(!new)>(rs: seq<Reloc<T>>): seq<Reloc<T>> {
    StableSort(rs, Descending)
  }

  ghost predicate AtOffset<T(!new)>(g: seq<Reloc<T>>, offset: nat) {
    g != [] && forall k :: 0 <= k < |g| ==> g[k].offset == offset
  }

  /** Elements in front that stay in front, then the new element. */
  lemma {:induction false} InsertBehind<T(!new)>(x: Reloc<T>, front: seq<Reloc<T>>, back: seq<Reloc<T>>)
    requires forall k :: 0 <= k < |front| ==> !Descending(x, front[k])
    requires back == [] || Descending(x, back[0])
    ensures Insert(x, front + back, Descending) == front + [x] + back
  {
    if front == [] {
      assert front + back == back;
    } else {
      assert (front + back)[1..] == front[1..] + back;
      InsertBehind(x, front[1..], back);
    }
  }

  /** Sorting in a group whose entries share one offset puts it in one piece. */
  lemma Regroup<T>(front: seq<T>, g: seq<T>, back: seq<T>)
    requires g != []
    ensures front + [g[0]] + (g[1..] + back) == front + g + back
  {
    assert g == [g[0]] + g[1..];
  }

  lemma SortNext<T(!new)>(x: Reloc<T>, rest: seq<Reloc<T>>)
    ensures StableSort([x] + rest, Descending) == Insert(x, StableSort(rest, Descending), Descending)
  {
    assert ([x] + rest)[1..] == rest;
  }

  lemma {:induction false} SortGroup<T(!new)>(g: seq<Reloc<T>>, offset: nat, rest: seq<Reloc<T>>, front: seq<Reloc<T>>, back: seq<Reloc<T>>)
    requires forall k :: 0 <= k < |g| ==> g[k].offset == offset
    requires StableSort(rest, Descending) == front + back
    requires forall k :: 0 <= k < |front| ==> front[k].offset > offset
    requires back == [] || offset >= back[0].offset
    ensures StableSort(g + rest, Descending) == front + g + back
  {
    if g == [] {
      assert g + rest == rest && front + g + back == front + back;
    } else {
      hide StableSort, Insert;
      SortNext(g[0], g[1..] + rest);
      assert g + rest == [g[0]] + (g[1..] + rest);
      SortGroup(g[1..], offset, rest, front, back);
      var tail := g[1..] + back;
      assert front + g[1..] + back == front + tail;
      assert tail == [] || Descending(g[0], tail[0]);
      InsertBehind(g[0], front, tail);
      Regroup(front, g, back);
    }
  }

  /** Where a new group goes among sorted groups. */
  lemma {:induction false} SplitGroups<T(!new)>(g: seq<Reloc<T>>, gs: seq<seq<Reloc<T>>>) returns (n: nat)
    requires g != [] && forall k :: 0 <= k < |gs| ==> gs[k] != []
    ensures n <= |gs| && Insert(g, gs, GroupsDescending) == gs[..n] + [g] + gs[n..]
    ensures forall k :: 0 <= k < n ==> gs[k][0].offset > g[0].offset
    ensures n < |gs| ==> g[0].offset >= gs[n][0].offset
  {
    if gs == [] || GroupsDescending(g, gs[0]) {
      n := 0;
      assert gs[..0] + [g] + gs[0..] == [g] + gs;
    } else {
      var m := SplitGroups(g, gs[1..]);
      n := m + 1;
      assert [gs[0]] + (gs[1..][..m] + [g] + gs[1..][m..]) == gs[..n] + [g] + gs[n..];
    }
  }

  lemma {:induction false} FlattenAppend<T>(a: seq<seq<T>>, b: seq<seq<T>>)
    ensures Flatten(a + b) == Flatten(a) + Flatten(b)
  {
    if a == [] {
      assert a + b == b;
    } else {
      assert (a + b)[1..] == a[1..] + b;
      FlattenAppend(a[1..], b);
    }
  }

  lemma {:induction false} FlattenOffsets<T(!new)>(gs: seq<seq<Reloc<T>>>, offset: nat)
    requires forall k :: 0 <= k < |gs| ==> gs[k] != [] && AtOffset(gs[k], gs[k][0].offset) && gs[k][0].offset > offset
    ensures forall k :: 0 <= k < |Flatten(gs)| ==> Flatten(gs)[k].offset > offset
  {
    if gs != [] {
      FlattenOffsets(gs[1..], offset);
    }
  }

  lemma FlattenHead<T(!new)>(gs: seq<seq<Reloc<T>>>)
    requires gs != [] ==> gs[0] != []
    ensures if gs == [] then Flatten(gs) == [] else Flatten(gs) != [] && Flatten(gs)[0] == gs[0][0]
  {
  }

  lemma NothingSorted<T(!new)>()
    ensures SortedRelocations(Flatten<Reloc<T>>([])) == Flatten(StableSort<seq<Reloc<T>>>([], GroupsDescending))
  {
  }

  lemma SortUnfold<T(!new)>(gs: seq<seq<Reloc<T>>>)
    requires gs != []
    ensures StableSort(gs, GroupsDescending) == Insert(gs[0], StableSort(gs[1..], GroupsDescending), GroupsDescending)
    ensures Flatten(gs) == gs[0] + Flatten(gs[1..])
    ensures SortedRelocations(Flatten(gs)) == StableSort(gs[0] + Flatten(gs[1..]), Descending)
    ensures SortedRelocations(Flatten(gs[1..])) == StableSort(Flatten(gs[1..]), Descending)
  {
  }

  /** Sorting the relocations is sorting the groups: no group is torn apart or reordered inside. */
  lemma {:induction false} SortKeepsGroups<T(!new)>(gs: seq<seq<Reloc<T>>>)
    requires forall k :: 0 <= k < |gs| ==> gs[k] != [] && AtOffset(gs[k], gs[k][0].offset)
    ensures SortedRelocations(Flatten(gs)) == Flatten(StableSort(gs, GroupsDescending))
  {
    hide Flatten, StableSort, Insert, SortedRelocations;
    if gs == [] {
      NothingSorted<T>();
    } else {
      SortKeepsGroups(gs[1..]);
      SortUnfold(gs);
      var sorted: seq<seq<Reloc<T>>> := StableSort(gs[1..], GroupsDescending);
      SortElements(gs[1..], GroupsDescending);
      forall k | 0 <= k < |sorted| ensures sorted[k] != [] && AtOffset(sorted[k], sorted[k][0].offset) {
        assert sorted[k] in multiset(sorted);
        assert sorted[k] in gs[1..];
      }
      var g := gs[0];
      var n := SplitGroups(g, sorted);
      var front, back := Flatten(sorted[..n]), Flatten(sorted[n..]);
      assert sorted == sorted[..n] + sorted[n..];
      FlattenAppend(sorted[..n], sorted[n..]);
      FlattenOffsets(sorted[..n], g[0].offset);
      FlattenHead(sorted[n..]);
      SortGroup(g, g[0].offset, Flatten(gs[1..]), front, back);
      FlattenSnoc(sorted[..n], g);
      FlattenAppend(sorted[..n] + [g], sorted[n..]);
    }
  }

  // ---- the pair scan --------------------------------------------------------------------------

  predicate PairOk<T(!new)>(r: Reloc<T>, rest: seq<Reloc<T>>)
    requires r.kind == ADDEND || r.kind == SUBTRACTOR
  {
    && rest != []
    && rest[0].offset == r.offset
    && (r.kind == ADDEND ==> TakesAddend(rest[0].kind))
    && (r.kind == SUBTRACTOR ==> rest[0].kind == UNSIGNED && rest[0].length == r.length)
  }

  /** Every addend or subtractor entry directly precedes the entry it modifies. */
  predicate PairsOk<T(!new)>(rs: seq<Reloc<T>>) {
    if rs == [] then true
    else if rs[0].kind == ADDEND || rs[0].kind == SUBTRACTOR then
      PairOk(rs[0], rs[1..]) && PairsOk(rs[2..])
    else PairsOk(rs[1..])
  }

  method ScanPairs<T(!new)>(rs: seq<Reloc<T>>) returns (ok: bool)
    ensures ok == PairsOk(rs)
  {
    var index := 0;
    while index < |rs|
      invariant 0 <= index <= |rs|
      invariant PairsOk(rs) == PairsOk(rs[index..])
    {
      var tail := rs[index..];
      assert tail[1..] == rs[index + 1..];
      if tail[0].kind == ADDEND || tail[0].kind == SUBTRACTOR {
        if !PairOk(tail[0], tail[1..]) {
          return false;
        }
        assert tail[2..] == rs[index + 2..];
        index := index + 2;
      } else {
        index := index + 1;
      }
    }
    return true;
  }

  lemma {:induction false} GroupsScan<T(!new)>(gs: seq<seq<Reloc<T>>>)
    requires forall k :: 0 <= k < |gs| ==> GroupOk(gs[k])
    ensures PairsOk(Flatten(gs))
  {
    if gs != [] {
      GroupsScan(gs[1..]);
      var rs, rest := Flatten(gs), Flatten(gs[1..]);
      assert rs[|gs[0]|..] == rest;
      if |gs[0]| == 2 {
        assert rs[1..][0] == gs[0][1];
      }
    }
  }

  lemma GroupAtOffset<T(!new)>(g: seq<Reloc<T>>)
    requires GroupOk(g)
    ensures g != [] && AtOffset(g, g[0].offset)
  {
  }

  lemma SortedGroupsOk<T(!new)>(gs: seq<seq<Reloc<T>>>)
    requires forall k :: 0 <= k < |gs| ==> GroupOk(gs[k])
    ensures forall k :: 0 <= k < |StableSort(gs, GroupsDescending)| ==> GroupOk(StableSort(gs, GroupsDescending)[k])
  {
    hide GroupOk;
    var sorted: seq<seq<Reloc<T>>> := StableSort(gs, GroupsDescending);
    SortElements(gs, GroupsDescending);
    forall k | 0 <= k < |sorted| ensures GroupOk(sorted[k]) {
      assert sorted[k] in multiset(sorted);
      assert sorted[k] in gs;
    }
  }

  /** Whatever the recorder holds, sorted by descending offset, passes the pair scan. */
  lemma RecordedPairsSurvive<T(!new)>(gs: seq<seq<Reloc<T>>>)
    requires forall k :: 0 <= k < |gs| ==> GroupOk(gs[k])
    ensures PairsOk(SortedRelocations(Flatten(gs)))
    ensures multiset(SortedRelocations(Flatten(gs))) == multiset(Flatten(gs))
    ensures SortedBy(SortedRelocations(Flatten(gs)), Descending)
  {
    hide GroupOk, PairsOk, Flatten;
    forall k | 0 <= k < |gs| ensures gs[k] != [] && AtOffset(gs[k], gs[k][0].offset) {
      GroupAtOffset(gs[k]);
    }
    SortKeepsGroups(gs);
    SortedGroupsOk(gs);
    GroupsScan(StableSort(gs, GroupsDescending));
    SortElements(Flatten(gs), Descending);
    SortSorted(Flatten(gs), Descending);
  }

  // ---- symbol table indices --------------------------------------------------------------------

  function Lower(p: Pending, indices: map<string, nat>): Relocation {
    var target := match p.target case Raw(v) => v case Named(symbol) => if symbol in indices then indices[symbol] else 0;
    Reloc(p.offset, target, p.length, p.kind, p.pcrel, p.external)
  }

  function LowerGroup(g: seq<Pending>, indices: map<string, nat>): (r: seq<Relocation>)
    ensures |r| == |g| && forall k :: 0 <= k < |g| ==> r[k] == Lower(g[k], indices)
  {
    seq(|g|, k requires 0 <= k < |g| => Lower(g[k], indices))
  }

  function LowerGroups(gs: seq<seq<Pending>>, indices: map<string, nat>): (r: seq<seq<Relocation>>)
    ensures |r| == |gs| && forall k :: 0 <= k < |gs| ==> r[k] == LowerGroup(gs[k], indices)
  {
    seq(|gs|, k requires 0 <= k < |gs| => LowerGroup(gs[k], indices))
  }

  lemma {:induction false} LowerFlatten(gs: seq<seq<Pending>>, indices: map<string, nat>)
    ensures LowerGroup(Flatten(gs), indices) == Flatten(LowerGroups(gs, indices))
  {
    if gs != [] {
      LowerFlatten(gs[1..], indices);
      assert LowerGroups(gs, indices)[1..] == LowerGroups(gs[1..], indices);
      assert LowerGroup(Flatten(gs), indices) == LowerGroup(gs[0], indices) + LowerGroup(Flatten(gs[1..]), indices);
    } else {
      assert LowerGroups(gs, indices) == [];
    }
  }

  predicate Known(p: Pending, indices: map<string, nat>) {
    p.target.Named? ==> p.target.symbol in indices
  }

  /**
    A section's relocations once symbols have indices: all recorded entries, unless a symbol has no index.
    Sorted for the file they pass the writer's pair scan, and each has an accepted form.
   */
  method FinishRelocations(recorder: Recorder, indices: map<string, nat>) returns (r: Result<seq<Relocation>, FixupError>)
    requires recorder.Valid()
    ensures r.Ok? <==> forall k :: 0 <= k < |recorder.pending| ==> Known(recorder.pending[k], indices)
    ensures r.Ok? ==> r.value == LowerGroup(recorder.pending, indices)
    ensures r.Ok? ==> PairsOk(SortedRelocations(r.value)) && forall k :: 0 <= k < |r.value| ==> FormOk(r.value[k])
  {
    var pending := recorder.pending;
    var relocations: seq<Relocation> := [];
    var i := 0;
    while i < |pending|
      invariant 0 <= i == |relocations| <= |pending|
      invariant forall k :: 0 <= k < i ==> Known(pending[k], indices) && relocations[k] == Lower(pending[k], indices)
    {
      match pending[i].target {
        case Named(symbol) =>
          if symbol !in indices {
            assert !Known(pending[i], indices);
            return Err(MissingSymbol(symbol));
          }
        case Raw(_) =>
      }
      relocations := relocations + [Lower(pending[i], indices)];
      i := i + 1;
    }
    LoweredPairsSurvive(recorder.groups, indices);
    assert relocations == LowerGroup(pending, indices);
    return Ok(relocations);
  }

  lemma LoweredPairsSurvive(gs: seq<seq<Pending>>, indices: map<string, nat>)
    requires forall k :: 0 <= k < |gs| ==> GroupOk(gs[k])
    ensures PairsOk(SortedRelocations(LowerGroup(Flatten(gs), indices)))
  {
    LowerFlatten(gs, indices);
    forall k | 0 <= k < |gs| ensures GroupOk(LowerGroups(gs, indices)[k]) {
      assert GroupOk(gs[k]);
    }
    RecordedPairsSurvive(LowerGroups(gs, indices));
  }
}
