/**
  The two passes of the assembler (src/assemble.rs). The layout pass reserves sizes and gathers labels
  and unwind records; the emission pass writes bytes. They are separate code and are proved to agree:
  every statement is reached at the same place, every section gets exactly the reserved size.
 */
module Assembler {
  import opened Words
  import opened Expr
  import opened SectionBases
  import opened Cfi
  import CompactUnwind
  import opened Layout
  import opened LayoutRun
  import Resolver
  import SetScope

  datatype Section = Section(segment: string, name: string, kind: SectionKind, align: nat, size: u64, data: seq<byte>)

  datatype UnwindRow = UnwindRow(section: nat, start: u64, length: nat, encoding: nat)

  datatype FrameRecord = FrameRecord(length: nat, instructions: seq<byte>)

  /** An instruction word, or a data field with its form; four-byte fields are classified when they are resolved. */
  datatype FixupKind = Word | Data32(value: Expr) | Data64(form: ClassifiedExpr)

  datatype Fixup = Fixup(section: nat, offset: nat, width: nat, kind: FixupKind)

  function SlotOf(s: Section): Slot { Slot(s.segment, s.name, s.kind, s.align, s.size) }

  function SlotsOf(sections: seq<Section>): (slots: seq<Slot>)
    ensures |slots| == |sections| && forall i :: 0 <= i < |sections| ==> slots[i] == SlotOf(sections[i])
  {
    seq(|sections|, i requires 0 <= i < |sections| => SlotOf(sections[i]))
  }

  /** Initialised sections hold as many bytes as they are long; zero-fill sections hold none. */
  predicate DataMatches(s: Section) {
    if IsZerofill(s.kind) then s.data == [] else |s.data| == s.size
  }

  ghost predicate AllMatch(sections: seq<Section>) {
    forall i :: 0 <= i < |sections| ==> DataMatches(sections[i])
  }

  // ---- emitted bytes ----------------------------------------------------------------------

  /** The section extended by bytes; a zero-fill section only grows. */
  function ExtendOne(s: Section, bytes: seq<byte>): Section
    requires s.size + |bytes| <= U64_MAX
  {
    s.(size := s.size + |bytes|, data := if IsZerofill(s.kind) then s.data else s.data + bytes)
  }

  function Extend(sections: seq<Section>, i: nat, bytes: seq<byte>): seq<Section>
    requires i < |sections| && sections[i].size + |bytes| <= U64_MAX
  {
    sections[i := ExtendOne(sections[i], bytes)]
  }

  const NOP: seq<byte> := [0x1F, 0x20, 0x03, 0xD5]

  function Nops(n: nat): (bs: seq<byte>)
    ensures |bs| == 4 * n
  {
    if n == 0 then [] else Nops(n - 1) + NOP
  }

  /** Alignment padding: the given fill, else zeros, except that code is padded with NOPs at word boundaries. */
  function PaddingBytes(kind: SectionKind, offset: nat, padding: nat, fill: Option<byte>): (bs: seq<byte>)
    ensures |bs| == padding
  {
    if IsZerofill(kind) then Repeated(0, padding)
    else if fill.Some? then Repeated(fill.value, padding)
    else if kind != Text then Repeated(0, padding)
    else
      var prefix := Min((4 - offset % 4) % 4, padding);
      var rest := padding - prefix;
      Repeated(0, prefix) + Nops(rest / 4) + Repeated(0, rest % 4)
  }

  predicate SignedFits(v: int, bits: nat)
    requires bits == 8 || bits == 16 || bits == 32
  {
    if bits == 8 then -0x80 <= v <= 0xFF else if bits == 16 then -0x8000 <= v <= 0xFFFF else -0x8000_0000 <= v <= 0xFFFF_FFFF
  }

  predicate UnsignedFits(v: int, bits: nat)
    requires bits == 8 || bits == 16 || bits == 32
  {
    if bits == 8 then v <= 0xFF || v >= U64_MAX - 0x7F
    else if bits == 16 then v <= 0xFFFF || v >= U64_MAX - 0x7FFF
    else v <= 0xFFFF_FFFF || v >= U64_MAX - 0x7FFF_FFFF
  }

  // ---- what a statement writes --------------------------------------------------------------

  /** Bytes of an alignment: none when nothing has to be skipped or too much would be. */
  function AlignBytes(kind: SectionKind, offset: u64, power: nat, fill: Option<byte>, maxSkip: Option<u64>): seq<byte> {
    CheckedAlignGrows(offset, power);
    var aligned := CheckedAlignValue(offset, power);
    if aligned.None? || (maxSkip.Some? && aligned.value - offset > maxSkip.value) then []
    else PaddingBytes(kind, offset, aligned.value - offset, fill)
  }

  function Copies(bytes: seq<byte>, n: nat): (bs: seq<byte>)
    ensures |bs| == n * |bytes|
  {
    if n == 0 then [] else Copies(bytes, n - 1) + bytes
  }

  predicate DataWidth(width: nat) { width == 1 || width == 2 || width == 4 || width == 8 }

  /** An element whose value is patched once symbols have addresses. */
  predicate Patched(form: ClassifiedExpr, width: nat) {
    width == 8 || (width == 4 && form.PointerToGot?)
  }

  /** One element of a data directive, or None when it has no such form or does not fit. */
  function ValueBytes(e: Expr, width: nat, symbols: SymbolTable): (r: Option<seq<byte>>)
    requires DataWidth(width)
    ensures r.Some? ==> |r.value| == width
  {
    var form := Classify(e, symbols);
    if form.Err? then None
    else if Patched(form.value, width) then Some(Repeated(0, width))
    else if form.value.AbsoluteForm? && SignedFits(form.value.constant, 8 * width) then Some(LE(form.value.constant, width))
    else if form.value.UnsignedForm? && UnsignedFits(form.value.magnitude, 8 * width) then Some(LE(form.value.magnitude, width))
    else None
  }

  function ValuesBytes(values: seq<Expr>, width: nat, symbols: SymbolTable): (r: Option<seq<byte>>)
    requires DataWidth(width)
    ensures r.Some? ==> |r.value| == |values| * width
  {
    if values == [] then Some([])
    else
      var before := ValuesBytes(values[..|values| - 1], width, symbols);
      var last := ValueBytes(values[|values| - 1], width, symbols);
      if before.None? || last.None? then None else Some(before.value + last.value)
  }

  lemma {:induction false} ValuesStop(values: seq<Expr>, width: nat, symbols: SymbolTable, k: nat)
    requires DataWidth(width) && k <= |values| && ValuesBytes(values[..k], width, symbols).None?
    ensures ValuesBytes(values, width, symbols).None?
  {
    hide ValueBytes;
    if k == |values| {
      assert values[..k] == values;
    } else {
      assert values[..|values| - 1][..k] == values[..k];
      ValuesStop(values[..|values| - 1], width, symbols, k);
    }
  }

  /** The elements' bytes and fixups, behind what was there. */
  ghost predicate ValuesWritten(a: seq<Section>, b: seq<Section>, before: seq<Fixup>, after: seq<Fixup>, at: nat,
                                values: seq<Expr>, width: nat,
                                symbols: SymbolTable)
  {
    && at < |a| && DataWidth(width) && ValuesBytes(values, width, symbols).Some?
    && Emitted(a, b, at, ValuesBytes(values, width, symbols).value)
    && after == before + ValuesFixups(values, width, symbols, at, a[at].size)
  }

  lemma NoValueWritten(a: seq<Section>, before: seq<Fixup>, at: nat, values: seq<Expr>, width: nat, symbols: SymbolTable)
    requires at < |a| && DataWidth(width)
    ensures ValuesWritten(a, a, before, before, at, values[..0], width, symbols)
  {
    EmittedNothing(a, a, at);
  }

  lemma ValuesAre(a: seq<Section>, b: seq<Section>, before: seq<Fixup>, after: seq<Fixup>, at: nat, values: seq<Expr>,
                  width: nat, symbols: SymbolTable)
    requires ValuesWritten(a, b, before, after, at, values, width, symbols)
    ensures ValuesBytes(values, width, symbols).Some? && Emitted(a, b, at, ValuesBytes(values, width, symbols).value)
    ensures after == before + ValuesFixups(values, width, symbols, at, a[at].size)
  {
  }

  lemma ValueWritten(a: seq<Section>, b: seq<Section>, c: seq<Section>, before: seq<Fixup>, fixed: seq<Fixup>, at: nat,
                     values: seq<Expr>, i: nat,
                     width: nat, symbols: SymbolTable)
    requires i < |values| && ValuesWritten(a, b, before, fixed, at, values[..i], width, symbols) && at < |b|
    requires b[at].size == a[at].size + i * width
    requires ValueBytes(values[i], width, symbols).Some? && Emitted(b, c, at, ValueBytes(values[i], width, symbols).value)
    ensures ValuesWritten(a, c, before, fixed + ValueFixups(values[i], width, symbols, at, b[at].size), at, values[..i + 1], width, symbols)
  {
    hide ValueBytes, ValueFixups, Emitted;
    assert values[..i + 1][..i] == values[..i];
    EmittedTwice(a, b, c, at, ValuesBytes(values[..i], width, symbols).value, ValueBytes(values[i], width, symbols).value);
  }

  lemma ValuesRefused(values: seq<Expr>, i: nat, width: nat, symbols: SymbolTable)
    requires i < |values| && DataWidth(width) && ValueBytes(values[i], width, symbols).None?
    ensures ValuesBytes(values, width, symbols).None?
  {
    hide ValueBytes;
    assert values[..i + 1][..i] == values[..i];
    ValuesStop(values, width, symbols, i + 1);
  }

  /** The fixup of one element at an offset; offsets are 32-bit. */
  function ValueFixups(e: Expr, width: nat, symbols: SymbolTable, section: nat, offset: nat): seq<Fixup> {
    var form := Classify(e, symbols);
    if form.Ok? && Patched(form.value, width) then
      [Fixup(section, offset % 0x1_0000_0000, width, if width == 8 then Data64(form.value) else Data32(e))]
    else []
  }

  function ValuesFixups(values: seq<Expr>, width: nat, symbols: SymbolTable, section: nat, offset: nat): seq<Fixup> {
    if values == [] then []
    else
      var last: nat := |values| - 1;
      ValuesFixups(values[..last], width, symbols, section, offset)
      + ValueFixups(values[last], width, symbols, section, offset + last * width)
  }

  /** What a statement leaves to be patched. */
  function StmtFixups(s: Stmt, symbols: SymbolTable, section: nat, offset: nat): seq<Fixup> {
    match s
    case InstructionWithReloc(_) => [Fixup(section, offset % 0x1_0000_0000, 4, Word)]
    case DataValues(width, values) => ValuesFixups(values, width, symbols, section, offset)
    case _ => []
  }

  /** The fixups of the first i statements, in order. */
  function FixupsUpTo(stmts: seq<Stmt>, reached: seq<(nat, u64)>, tables: seq<SymbolTable>, i: nat): seq<Fixup>
    requires i <= |stmts| && i <= |reached| && i <= |tables|
  {
    if i == 0 then []
    else FixupsUpTo(stmts, reached, tables, i - 1) + StmtFixups(stmts[i - 1], tables[i - 1], reached[i - 1].0, reached[i - 1].1)
  }

  lemma {:induction false} FixupsPrefix(stmts: seq<Stmt>, a: seq<(nat, u64)>, b: seq<(nat, u64)>, tables: seq<SymbolTable>, i: nat)
    requires i <= |stmts| && i <= |a| && a <= b && i <= |tables|
    ensures FixupsUpTo(stmts, a, tables, i) == FixupsUpTo(stmts, b, tables, i)
  {
    hide StmtFixups;
    if i > 0 {
      FixupsPrefix(stmts, a, b, tables, i - 1);
    }
  }

  lemma FixupsNext(stmts: seq<Stmt>, reached: seq<(nat, u64)>, tables: seq<SymbolTable>, place: (nat, u64))
    requires |reached| < |stmts| && |reached| < |tables|
    ensures var i := |reached|;
            FixupsUpTo(stmts, reached + [place], tables, i + 1)
            == FixupsUpTo(stmts, reached, tables, i) + StmtFixups(stmts[i], tables[i], place.0, place.1)
  {
    hide StmtFixups;
    FixupsPrefix(stmts, reached, reached + [place], tables, |reached|);
  }

  /** What a statement writes into the section it stands in, or None when emission refuses it. */
  function StmtBytes(kind: SectionKind, offset: u64, s: Stmt, symbols: SymbolTable): Option<seq<byte>>
    requires WellFormedStmt(s)
  {
    match s
    case Instruction(word) => Some(LE(word, 4))
    case InstructionWithReloc(word) => Some(LE(word, 4))
    case Align(power, fill, maxSkip) => Some(AlignBytes(kind, offset, power, fill, maxSkip))
    case DataValues(width, values) => ValuesBytes(values, width, symbols)
    case Ascii(text) => Some(text)
    case Space(amount) => Some(Repeated(0, amount))
    case Fill(repeat, unit, pattern) =>
      if FillTotal(repeat, unit) > MAX_SPACE then None
      else Some(Copies(LE(pattern % 0x1_0000_0000, 8)[..Min(unit, 8)], repeat))
    case _ => Some([])
  }

  function Writes(section: Section, s: Stmt, symbols: SymbolTable): Option<seq<byte>>
    requires WellFormedStmt(s)
  {
    StmtBytes(section.kind, section.size, s, symbols)
  }

  /** Section `at` got the bytes, unless it is zero-fill; every other section kept its own. */
  ghost predicate Emitted(a: seq<Section>, b: seq<Section>, at: nat, bytes: seq<byte>) {
    && |a| <= |b|
    && forall i :: 0 <= i < |a| ==>
         b[i].kind == a[i].kind && b[i].data == a[i].data + if i == at && !IsZerofill(a[i].kind) then bytes else []
  }

  lemma EmittedTwice(a: seq<Section>, b: seq<Section>, c: seq<Section>, at: nat, x: seq<byte>, y: seq<byte>)
    requires Emitted(a, b, at, x) && Emitted(b, c, at, y)
    ensures Emitted(a, c, at, x + y)
  {
    forall i | 0 <= i < |a|
      ensures c[i].kind == a[i].kind && c[i].data == a[i].data + if i == at && !IsZerofill(a[i].kind) then x + y else []
    {
      assert (a[i].data + x) + y == a[i].data + (x + y);
    }
  }

  lemma EmittedNothing(a: seq<Section>, b: seq<Section>, at: nat)
    requires |a| <= |b| && forall i :: 0 <= i < |a| ==> b[i].kind == a[i].kind && b[i].data == a[i].data
    ensures Emitted(a, b, at, [])
  {
  }

  /** Raising an alignment writes nothing. */
  lemma Realigned(sections: seq<Section>, i: nat, align: nat)
    requires i < |sections|
    ensures var after := sections[i := sections[i].(align := align)];
            && Emitted(sections, after, i, []) && Longer(sections, after) && (AllMatch(sections) ==> AllMatch(after))
  {
    var after := sections[i := sections[i].(align := align)];
    EmittedNothing(sections, after, i);
    if AllMatch(sections) {
      forall k | 0 <= k < |after| ensures DataMatches(after[k]) {
        assert DataMatches(sections[k]);
      }
    }
  }

  lemma ExtendEmits(sections: seq<Section>, i: nat, bytes: seq<byte>)
    requires i < |sections| && sections[i].size + |bytes| <= U64_MAX
    ensures Emitted(sections, Extend(sections, i, bytes), i, bytes)
  {
  }

  /** The sections after one more, empty ones for the generated sections. */
  function FromSlot(s: Slot): Section { Section(s.segment, s.name, s.kind, s.align, s.size, []) }

  lemma FindMatches(sections: seq<Section>, segment: string, name: string, i: nat)
    requires i <= |sections|
    requires i < |sections| ==> sections[i].segment == segment && sections[i].name == name
    requires forall k :: 0 <= k < i ==> !(sections[k].segment == segment && sections[k].name == name)
    ensures FindSection(SlotsOf(sections), segment, name) == i
  {
    var slots := SlotsOf(sections);
    assert forall k :: 0 <= k < i ==> !Named(slots[k], segment, name);
    assert i < |slots| ==> Named(slots[i], segment, name);
  }

  /** Labels, `.set` directives and the like leave the sections as they are. */
  lemma WritesNothing(g: Geometry, s: Stmt, sections: seq<Section>, i: nat, symbols: SymbolTable)
    requires InSection(g) && WellFormedStmt(s) && i < |sections|
    requires s.Label? || s.Comm? || s.SetAbsolute? || s.CfiStart? || s.CfiEnd? || s.CfiRule? || s.Attribute?
    ensures Step(g, s) == Some(g) && Writes(sections[i], s, symbols) == Some([]) && Emitted(sections, sections, i, [])
    ensures StmtFixups(s, symbols, i, sections[i].size) == []
  {
    EmittedNothing(sections, sections, i);
  }

  lemma NoFixups(s: Stmt, symbols: SymbolTable, section: nat, offset: nat)
    requires s.SwitchTo? || s.Align? || s.Fill? || s.Zerofill?
    ensures StmtFixups(s, symbols, section, offset) == []
  {
  }

  /** Most statements change nothing but the geometry. */
  lemma GeometryAlone(l: LayoutState, s: Stmt)
    requires InSection(l.geometry)
    requires !s.Label? && !s.SetAbsolute? && !s.Comm? && !s.CfiStart? && !s.CfiEnd? && !s.CfiRule? && !s.Zerofill?
    ensures LayoutStep(l, s) == if Step(l.geometry, s).None? then None else Some(l.(geometry := Step(l.geometry, s).value))
  {
    hide Step;
  }

  lemma CfiRuleStep(l: LayoutState, dir: CfiDirective)
    requires InSection(l.geometry)
    ensures LayoutStep(l, CfiRule(dir)) == if l.proc.None? then None else RuleStep(l, l.proc.value, dir)
  {
    hide RuleStep;
  }

  lemma EndStep(l: LayoutState)
    requires InSection(l.geometry)
    ensures LayoutStep(l, CfiEnd) == if l.proc.None? then None else EndProc(l, l.proc.value)
  {
    hide EndProc;
  }

  /** The compact encoder refuses the stack size, or there is neither a compact encoding nor a frame. */
  ghost predicate ProcRefused(p: ProcFacts) {
    StackRefused(p) || ((p.forbidden || !LayoutRun.Encodable(p.rules)) && EncodeEvents(p.events).Err?)
  }

  /** The procedure ends elsewhere, is too long, or has no unwind information. */
  lemma NoEnd(l: LayoutState, p: ProcFacts)
    requires InSection(l.geometry)
    requires var (section, offset) := Here(l.geometry);
             p.section != section || offset < p.start || offset - p.start > U32_MAX || ProcRefused(p)
    ensures EndProc(l, p) == None
  {
    hide StackRefused, LayoutRun.Encodable, EncodeEvents;
  }

  /** The chosen encoding or the instructions of the frame stand for the procedure. */
  ghost predicate ProcEncoded(p: ProcFacts, encoding: nat, instructions: Option<seq<byte>>) {
    && !StackRefused(p) && encoding <= U32_MAX
    && if instructions.None? then
         !p.forbidden && LayoutRun.Encodable(p.rules) && CompactUnwind.DecodeCompact(encoding) == Some(p.rules)
       else
         && (p.forbidden || !LayoutRun.Encodable(p.rules)) && encoding == CompactUnwind.MODE_DWARF
         && EncodeEvents(p.events) == Ok(instructions.value) && DecodeInstructions(instructions.value, 0) == Some(p.events)
  }

  lemma ProcEnds(l: LayoutState, p: ProcFacts, rows: seq<UnwindRow>, frames: seq<FrameRecord>, row: UnwindRow,
                 instructions: Option<seq<byte>>)
    requires InSection(l.geometry) && l.rows == |rows| && l.frames == Lengths(frames) && ProcEncoded(p, row.encoding, instructions)
    requires var (section, offset) := Here(l.geometry);
             && p.section == section && p.start <= offset <= p.start + U32_MAX
             && row == UnwindRow(section, p.start, offset - p.start, row.encoding)
    ensures var frames' := if instructions.Some? then frames + [FrameRecord(row.length, instructions.value)] else frames;
            && EndProc(l, p) == Some(l.(proc := None, rows := |rows| + 1, frames := Lengths(frames')))
            && RowAdded(rows, frames, rows + [row], frames', Finished(p, Here(l.geometry).1))
  {
    hide StackRefused, LayoutRun.Encodable, EncodeEvents, DecodeInstructions, CompactUnwind.DecodeCompact;
    DwarfModeAlone();
    if instructions.Some? {
      var frame := FrameRecord(row.length, instructions.value);
      assert Lengths(frames + [frame]) == Lengths(frames) + [|instructions.value|];
    }
  }

  lemma NothingTwice(a: seq<Section>, b: seq<Section>, c: seq<Section>, at: nat)
    requires Emitted(a, b, at, []) && Emitted(b, c, at, [])
    ensures Emitted(a, c, at, [])
  {
    hide Emitted;
    var none: seq<byte> := [];
    assert none + none == none;
    EmittedTwice(a, b, c, at, none, none);
  }

  /** More sections behind the others are no change to those. */
  lemma KeptWhole(a: seq<Section>, b: seq<Section>, at: nat)
    requires a <= b
    ensures Emitted(a, b, at, []) && Longer(a, b)
  {
    EmittedNothing(a, b, at);
  }

  /** A zero-fill section takes room and no bytes. */
  lemma ZerofillGrown(g: Geometry, sections: seq<Section>, i: nat, at: nat, align: nat, size: u64)
    requires i < |sections| && IsZerofill(sections[i].kind) && g.sections == SlotsOf(sections)
    ensures var after := sections[i := sections[i].(align := align, size := size)];
            && SlotsOf(after) == Resized(g, i, align, size).sections
            && Emitted(sections, after, at, []) && Longer(sections, after) && (AllMatch(sections) ==> AllMatch(after))
  {
    var after := sections[i := sections[i].(align := align, size := size)];
    EmittedNothing(sections, after, at);
    if AllMatch(sections) {
      forall k | 0 <= k < |after| ensures DataMatches(after[k]) {
        assert DataMatches(sections[k]);
      }
    }
  }

  class Assembly {
    var section: nat
    var sections: seq<Section>
    var sourceSections: nat
    var labels: map<string, (nat, u64)>
    var commons: set<string>
    var absolutes: set<string>
    var proc: CfiProc?
    var rows: seq<UnwindRow>
    var frames: seq<FrameRecord>
    var expected: seq<Slot>
    var bases: seq<nat>
    var assignments: seq<Resolver.Assignment>
    const cursor: SetScope.SetCursor
    var fixups: seq<Fixup>
    ghost var reached: seq<(nat, u64)>

    ghost function Place(): Geometry
      reads this`section, this`sections
    {
      Geometry(section, SlotsOf(sections))
    }

    ghost function Proc(): Option<ProcFacts>
      reads this`proc, proc
    {
      if proc == null then None else Some(FactsOf(proc))
    }

    ghost function View(): LayoutState
      reads this`section, this`sections, this`labels, this`commons, this`absolutes, this`proc, this`rows, this`frames, proc
    {
      LayoutState(Place(), labels, commons, absolutes, Proc(), |rows|, Lengths(frames))
    }

    ghost predicate Valid()
      reads this`section, this`sections, this`proc, proc
    {
      section < |sections| && (proc != null ==> proc.Valid())
    }

    constructor ()
      ensures Valid() && proc == null && View() == InitialLayout() && reached == [] && assignments == [] && fresh(cursor)
      ensures sections == [Section("__TEXT", "__text", Text, 0, 0, [])] && rows == [] && frames == []
    {
      section, sections, sourceSections := 0, [Section("__TEXT", "__text", Text, 0, 0, [])], 1;
      labels, commons, absolutes, proc := map[], {}, {}, null;
      rows, frames, expected, bases, assignments, fixups, reached := [], [], [], [], [], [], [];
      cursor := new SetScope.SetCursor();
      new;
      assert SlotsOf(sections) == InitialGeometry().sections;
    }

    // ---- shared by both passes ---------------------------------------------------------

    method EnsureSectionIndex(segment: string, sect: string) returns (r: Option<nat>)
      requires section < |sections|
      modifies this`sections
      ensures section < |sections|
      ensures var e := EnsureSection(old(Place()), segment, sect);
              && (r.Some? <==> e.Some?)
              && (r.Some? ==> e.value == (Place(), r.value) && r.value < |sections|)
      ensures r.None? ==> sections == old(sections)
      ensures old(sections) <= sections
      ensures Longer(old(sections), sections)
      ensures AllMatch(old(sections)) ==> AllMatch(sections)
    {
      hide SupportedSection;
      var supported := SupportedSection(segment, sect);
      if supported.None? {
        return None;
      }
      var (seg, name, kind) := supported.value;
      var i := 0;
      while i < |sections| && !(sections[i].segment == seg && sections[i].name == name)
        invariant 0 <= i <= |sections| && sections == old(sections)
        invariant forall k :: 0 <= k < i ==> !(sections[k].segment == seg && sections[k].name == name)
      {
        i := i + 1;
      }
      FindMatches(sections, seg, name, i);
      if i < |sections| {
        return Some(i);
      }
      sections := sections + [Section(seg, name, kind, 0, 0, [])];
      assert SlotsOf(sections) == SlotsOf(old(sections)) + [Slot(seg, name, kind, 0, 0)];
      return Some(i);
    }

    method SwitchSection(segment: string, sect: string) returns (ok: bool)
      requires section < |sections|
      modifies this`section, this`sections
      ensures section < |sections|
      ensures Longer(old(sections), sections)
      ensures ok ==> Step(old(Place()), SwitchTo(segment, sect)) == Some(Place())
      ensures !ok ==> Step(old(Place()), SwitchTo(segment, sect)) == None
      ensures AllMatch(old(sections)) ==> AllMatch(sections)
      ensures old(sections) <= sections
    {
      hide EnsureSection;
      var r := EnsureSectionIndex(segment, sect);
      if r.None? {
        return false;
      }
      section := r.value;
      return true;
    }

    /** Reserve room in the current section without writing. */
    method ReserveBytes(amount: nat) returns (ok: bool)
      requires section < |sections|
      modifies this`sections
      ensures section < |sections|
      ensures ok ==> Reserve(old(Place()), amount) == Some(Place())
      ensures !ok ==> Reserve(old(Place()), amount) == None && sections == old(sections)
      ensures ok ==> sections == old(sections)[section := old(sections)[section].(size := sections[section].size)]
    {
      if IsZerofill(sections[section].kind) || sections[section].size + amount > U64_MAX {
        return false;
      }
      sections := sections[section := sections[section].(size := sections[section].size + amount)];
      assert SlotsOf(sections) == Resized(old(Place()), section, sections[section].align, sections[section].size).sections;
      return true;
    }

    // ---- the layout pass -------------------------------------------------------------------

    method CollectAlignment(power: nat, maxSkip: Option<u64>) returns (ok: bool)
      requires section < |sections|
      modifies this`sections
      ensures section < |sections|
      ensures ok ==> AlignStep(old(Place()), power, maxSkip) == Some(Place())
      ensures !ok ==> AlignStep(old(Place()), power, maxSkip) == None
    {
      if power > MAX_ALIGN_POWER {
        return false;
      }
      var current := sections[section].size;
      var aligned := CheckedAlignValue(current, power);
      if aligned.None? {
        return false;
      }
      CheckedAlignGrows(current, power);
      var padding := aligned.value - current;
      sections := sections[section := sections[section].(align := Max(sections[section].align, power))];
      if maxSkip.Some? && padding > maxSkip.value {
        assert SlotsOf(sections) == Resized(old(Place()), section, sections[section].align, current).sections;
        return true;
      }
      sections := sections[section := sections[section].(size := aligned.value)];
      assert SlotsOf(sections) == Resized(old(Place()), section, sections[section].align, aligned.value).sections;
      return true;
    }

    method CollectSpace(amount: u64) returns (ok: bool)
      requires section < |sections|
      modifies this`sections
      ensures section < |sections|
      ensures ok ==> Step(old(Place()), Space(amount)) == Some(Place())
      ensures !ok ==> Step(old(Place()), Space(amount)) == None
    {
      if amount > MAX_SPACE || sections[section].size + amount > U64_MAX {
        return false;
      }
      sections := sections[section := sections[section].(size := sections[section].size + amount)];
      assert SlotsOf(sections) == Resized(old(Place()), section, sections[section].align, sections[section].size).sections;
      return true;
    }

    method ReserveZerofill(s: Stmt) returns (ok: bool)
      requires s.Zerofill? && section < |sections|
      modifies this`sections, this`labels
      ensures section < |sections|
      ensures ok ==> ZerofillStep(old(Place()), s.segment, s.sect, s.amount, s.power) == Some(Place())
      ensures ok ==> if s.symbol.None? then labels == old(labels)
                     else !Taken(old(View()), s.symbol.value)
                          && labels == old(labels)[s.symbol.value := ZerofillAt(old(Place()), s)]
      ensures !ok ==> ZerofillStep(old(Place()), s.segment, s.sect, s.amount, s.power) == None
                      || (s.symbol.Some? && Taken(old(View()), s.symbol.value))
    {
      hide EnsureSection;
      if s.power > MAX_ALIGN_POWER {
        return false;
      }
      var target := EnsureSectionIndex(s.segment, s.sect);
      if target.None? {
        return false;
      }
      var i := target.value;
      ghost var ensured := Place();
      if !IsZerofill(sections[i].kind) {
        return false;
      }
      var offset := CheckedAlignValue(sections[i].size, s.power);
      if offset.None? {
        return false;
      }
      CheckedAlignGrows(sections[i].size, s.power);
      sections := sections[i := sections[i].(align := Max(sections[i].align, s.power), size := offset.value)];
      if s.symbol.Some? {
        var name := s.symbol.value;
        if name in commons || name in absolutes || name in labels {
          return false;
        }
        labels := labels[name := (i, offset.value)];
      }
      if sections[i].size + s.amount > U64_MAX {
        return false;
      }
      sections := sections[i := sections[i].(size := sections[i].size + s.amount)];
      assert SlotsOf(sections) == Resized(ensured, i, sections[i].align, sections[i].size).sections;
      return true;
    }

    method StartCfiProc() returns (ok: bool)
      requires Valid()
      modifies this`proc
      ensures Valid()
      ensures ok ==> LayoutStep(old(View()), CfiStart) == Some(View()) && proc != null && fresh(proc)
      ensures !ok ==> LayoutStep(old(View()), CfiStart) == None && proc == old(proc)
    {
      if proc != null || sections[section].kind != Text {
        return false;
      }
      if !(exists name :: name in labels && labels[name] == (section, sections[section].size)) {
        return false;
      }
      proc := new CfiProc(section, sections[section].size);
      return true;
    }

    method ApplyCfiDirective(dir: CfiDirective) returns (ok: bool)
      requires Valid()
      modifies proc
      ensures Valid()
      ensures ok ==> LayoutStep(old(View()), CfiRule(dir)) == Some(View())
      ensures !ok ==> LayoutStep(old(View()), CfiRule(dir)) == None
    {
      hide LayoutStep, Direct, SlotsOf, Replay, Lengths;
      CfiRuleStep(View(), dir);
      if proc == null {
        return false;
      }
      var r := proc.Apply(dir, sections[section].size);
      return r.Ok?;
    }

    method FinishCfiProc() returns (ok: bool)
      requires Valid()
      modifies this`proc, this`rows, this`frames
      ensures Valid() && (proc == null || proc == old(proc))
      ensures ok ==> LayoutStep(old(View()), CfiEnd) == Some(View()) && proc == null
      ensures !ok ==> LayoutStep(old(View()), CfiEnd) == None
      ensures ok ==> old(Proc()).Some?
                     && RowAdded(old(rows), old(frames), rows, frames, Finished(old(Proc()).value, Here(old(Place())).1))
    {
      hide LayoutStep, EndProc, RowAdded, SlotsOf, Lengths, ProcEncoded, ProcRefused;
      EndStep(View());
      if proc == null {
        return false;
      }
      var finished := proc;
      ghost var l, facts := View(), FactsOf(proc);
      proc := null;
      var length := sections[section].size - finished.startOffset;
      if finished.startSection != section || length < 0 {
        NoEnd(l, facts);
        return false;
      }
      var encoded := EncodeProc(finished);
      if encoded.None? || length > U32_MAX {
        NoEnd(l, facts);
        return false;
      }
      var (encoding, instructions) := encoded.value;
      var row := UnwindRow(section, finished.startOffset, length, encoding);
      ProcEnds(l, facts, rows, frames, row, instructions);
      rows := rows + [row];
      if instructions.Some? {
        frames := frames + [FrameRecord(length, instructions.value)];
      }
      return true;
    }

    // ---- one statement of the layout pass ---------------------------------------------------

    method CollectStmt(s: Stmt) returns (ok: bool)
      requires Valid() && WellFormedStmt(s)
      modifies this, proc
      ensures Valid() && (proc == null || proc == old(proc) || fresh(proc))
      ensures ok ==> LayoutStep(old(View()), s) == Some(View())
      ensures !ok ==> LayoutStep(old(View()), s) == None
      ensures ok ==> reached == old(reached) + [Here(old(Place()))]
      ensures ok ==> assignments == old(assignments) + AssignmentOf(s)
      ensures ok ==> if s.CfiEnd? then old(Proc()).Some?
                && RowAdded(old(rows), old(frames), rows, frames, Finished(old(Proc()).value, Here(old(Place())).1))
                     else rows == old(rows) && frames == old(frames)
    {
      hide LayoutStep, RowAdded, Assembly.View, Lengths, SlotsOf, CfiProc.Valid;
      reached := reached + [Here(Place())];
      if s.Label? || s.SetAbsolute? || s.Comm? {
        ok := CollectName(s);
      } else if s.CfiStart? || s.CfiEnd? || s.CfiRule? {
        ok := CollectCfi(s);
      } else {
        ok := CollectGeometry(s);
      }
    }

    /** Unwind directives. */
    method CollectCfi(s: Stmt) returns (ok: bool)
      requires Valid() && (s.CfiStart? || s.CfiEnd? || s.CfiRule?)
      modifies this`proc, this`rows, this`frames, proc
      ensures Valid() && (proc == null || proc == old(proc) || fresh(proc))
      ensures ok ==> LayoutStep(old(View()), s) == Some(View())
      ensures !ok ==> LayoutStep(old(View()), s) == None
      ensures ok ==> if s.CfiEnd? then old(Proc()).Some?
                && RowAdded(old(rows), old(frames), rows, frames, Finished(old(Proc()).value, Here(old(Place())).1))
                     else rows == old(rows) && frames == old(frames)
    {
      hide LayoutStep, RowAdded, Lengths, SlotsOf, CfiProc.Valid;
      match s {
        case CfiStart => ok := StartCfiProc();
        case CfiEnd => ok := FinishCfiProc();
        case CfiRule(dir) => ok := ApplyCfiDirective(dir);
      }
    }

    /** Labels, `.set` names and common symbols. */
    method CollectName(s: Stmt) returns (ok: bool)
      requires section < |sections| && (s.Label? || s.SetAbsolute? || s.Comm?)
      modifies this`labels, this`absolutes, this`commons, this`assignments
      ensures ok ==> LayoutStep(old(View()), s) == Some(View()) && assignments == old(assignments) + AssignmentOf(s)
      ensures !ok ==> LayoutStep(old(View()), s) == None
    {
      hide SlotsOf, Lengths, CfiProc.Valid, Replay;
      match s {
        case Label(name) =>
          if name in commons || name in labels {
            return false;
          }
          labels := labels[name := (section, sections[section].size)];
        case SetAbsolute(name, value) =>
          absolutes := absolutes + {name};
          assignments := assignments + [Resolver.Assignment(name, value)];
        case Comm(name, power) =>
          if power > 15 || name in labels || name in absolutes {
            return false;
          }
          commons := commons + {name};
      }
      return true;
    }

    /** The statements that move the current section or its size. */
    method CollectGeometry(s: Stmt) returns (ok: bool)
      requires section < |sections| && WellFormedStmt(s)
      requires !s.Label? && !s.SetAbsolute? && !s.Comm? && !s.CfiStart? && !s.CfiEnd? && !s.CfiRule?
      modifies this`section, this`sections, this`labels
      ensures section < |sections|
      ensures ok ==> LayoutStep(old(View()), s) == Some(View())
      ensures !ok ==> LayoutStep(old(View()), s) == None
    {
      hide LayoutStep, Step, SlotsOf, Lengths, WellFormedStmt;
      if s.Zerofill? {
        ok := CollectZerofill(s);
      } else {
        GeometryAlone(View(), s);
        ok := CollectSize(s);
      }
    }

    method CollectZerofill(s: Stmt) returns (ok: bool)
      requires section < |sections| && s.Zerofill?
      modifies this`sections, this`labels
      ensures section < |sections|
      ensures ok ==> LayoutStep(old(View()), s) == Some(View())
      ensures !ok ==> LayoutStep(old(View()), s) == None
    {
      hide ZerofillStep, ZerofillAt, SlotsOf, Lengths;
      ok := ReserveZerofill(s);
    }

    method CollectSize(s: Stmt) returns (ok: bool)
      requires section < |sections| && WellFormedStmt(s)
      requires !s.Label? && !s.SetAbsolute? && !s.Comm? && !s.CfiStart? && !s.CfiEnd? && !s.CfiRule? && !s.Zerofill?
      modifies this`section, this`sections
      ensures section < |sections|
      ensures ok ==> Step(old(Place()), s) == Some(Place())
      ensures !ok ==> Step(old(Place()), s) == None
    {
      hide EnsureSection, CheckedAlignValue, AlignStep, Reserve, SlotsOf;
      match s {
        case Instruction(_) => ok := ReserveBytes(4);
        case InstructionWithReloc(_) => ok := ReserveBytes(4);
        case SwitchTo(segment, sect) => ok := SwitchSection(segment, sect);
        case Align(power, _, maxSkip) => ok := CollectAlignment(power, maxSkip);
        case DataValues(width, values) => ok := ReserveBytes(|values| * width);
        case Ascii(text) => ok := ReserveBytes(|text|);
        case Space(amount) => ok := CollectSpace(amount);
        case Fill(repeat, unit, _) =>
          if FillTotal(repeat, unit) > U64_MAX {
            return false;
          }
          ok := ReserveBytes(FillTotal(repeat, unit));
        case Attribute => ok := true;
      }
    }

    method CollectLayout(stmts: seq<Stmt>) returns (ok: bool)
      requires Valid() && View() == InitialLayout() && proc == null && reached == [] && assignments == []
      requires forall i :: 0 <= i < |stmts| ==> WellFormedStmt(stmts[i])
      modifies this
      ensures Valid() && (proc == null || fresh(proc))
      ensures ok ==> LayoutAll(stmts) == Some(View()) && proc == null
      ensures !ok ==> LayoutAll(stmts).None? || LayoutAll(stmts).value.proc.Some?
      ensures ok ==> |reached| == |stmts| && forall k :: 0 <= k < |stmts| ==> ReachedAt(InitialGeometry(), stmts, k, reached[k])
      ensures ok ==> assignments == SetList(stmts) && Described(rows, frames, Procs(stmts))
    {
      hide LayoutStep, LayoutAll, ReachedAt, Run, Described, RowAdded, SlotsOf, Lengths, CfiProc.Valid, WellFormedStmt, SetList, Procs;
      var i := 0;
      NothingLaidOut(stmts);
      NothingDescribed(stmts, rows, frames);
      while i < |stmts|
        invariant 0 <= i <= |stmts| && Valid() && (proc == null || fresh(proc))
        invariant LayoutAll(stmts[..i]) == Some(View())
        invariant |reached| == i && forall k :: 0 <= k < i ==> ReachedAt(InitialGeometry(), stmts, k, reached[k])
        invariant assignments == SetList(stmts[..i]) && Described(rows, frames, Procs(stmts[..i]))
      {
        LayoutNext(stmts, i);
        ListsNext(stmts, i);
        ghost var rowsBefore, framesBefore := rows, frames;
        var step := CollectStmt(stmts[i]);
        if !step {
          LayoutStops(stmts, i + 1);
          return false;
        }
        if stmts[i].CfiEnd? {
          ghost var l := LayoutAll(stmts[..i]).value;
          DescribedNext(rowsBefore, framesBefore, Procs(stmts[..i]), rows, frames, Finished(l.proc.value, Here(l.geometry).1));
        } else {
          assert Procs(stmts[..i + 1]) == Procs(stmts[..i]);
        }
        i := i + 1;
      }
      assert stmts[..i] == stmts;
      return proc == null;
    }

    // ---- the emission pass ---------------------------------------------------------------------

    method EmitBytes(bytes: seq<byte>) returns (ok: bool)
      requires section < |sections|
      modifies this`sections
      ensures section < |sections|
      ensures ok <==> Reserve(old(Place()), |bytes|).Some?
      ensures ok ==> !IsZerofill(old(sections)[section].kind) && sections == Extend(old(sections), section, bytes)
      ensures !ok ==> sections == old(sections)
    {
      ok := ReserveBytes(|bytes|);
      if ok {
        sections := sections[section := sections[section].(data := sections[section].data + bytes)];
      }
    }

    method EmitSpace(amount: nat) returns (ok: bool)
      requires section < |sections|
      modifies this`sections
      ensures section < |sections|
      ensures ok <==> old(sections)[section].size + amount <= U64_MAX
      ensures ok ==> sections == Extend(old(sections), section, Repeated(0, amount))
      ensures !ok ==> sections == old(sections)
    {
      var current := sections[section];
      if current.size + amount > U64_MAX {
        return false;
      }
      if IsZerofill(current.kind) {
        sections := sections[section := current.(size := current.size + amount)];
      } else {
        sections := sections[section := current.(size := current.size + amount, data := current.data + Repeated(0, amount))];
      }
      return true;
    }

    method EmitRepeatedByte(b: byte, amount: nat) returns (ok: bool)
      requires section < |sections| && !IsZerofill(sections[section].kind)
      modifies this`sections
      ensures section < |sections|
      ensures ok <==> old(sections)[section].size + amount <= U64_MAX
      ensures ok ==> sections == Extend(old(sections), section, Repeated(b, amount))
    {
      if amount == 0 {
        ExtendNone(sections, section);
        assert Repeated(b, amount) == [];
        return true;
      }
      if b == 0 {
        ok := EmitSpace(amount);
        return;
      }
      ok := ReserveBytes(amount);
      if ok {
        sections := sections[section := sections[section].(data := sections[section].data + Repeated(b, amount))];
      }
    }

    /** Whole NOP words, one at a time. */
    method EmitNops(count: nat) returns (ok: bool)
      requires section < |sections| && !IsZerofill(sections[section].kind) && sections[section].size + 4 * count <= U64_MAX
      modifies this`sections
      ensures section < |sections| && ok
      ensures sections == Extend(old(sections), section, Nops(count))
    {
      hide Extend;
      var i := 0;
      ExtendNone(sections, section);
      while i < count
        invariant 0 <= i <= count && section < |sections| == |old(sections)|
        invariant sections == Extend(old(sections), section, Nops(i))
      {
        ExtendFits(old(sections), section, Nops(i));
        var word := EmitBytes(NOP);
        assert Nops(i + 1) == Nops(i) + NOP;
        ExtendTwice(old(sections), section, Nops(i), NOP);
        ExtendFits(old(sections), section, Nops(i + 1));
        i := i + 1;
      }
      return true;
    }

    method EmitAlignmentPadding(padding: nat, fill: Option<byte>) returns (ok: bool)
      requires section < |sections| && sections[section].size + padding <= U64_MAX
      modifies this`sections
      ensures section < |sections| && ok
      ensures sections == Extend(old(sections), section,
                                 PaddingBytes(old(sections)[section].kind, old(sections)[section].size, padding, fill))
    {
      hide Extend;
      var kind, offset := sections[section].kind, sections[section].size;
      if padding == 0 {
        ExtendNone(sections, section);
        assert PaddingBytes(kind, offset, padding, fill) == [];
        return true;
      }
      if IsZerofill(kind) {
        ok := EmitSpace(padding);
        return;
      }
      if fill.Some? {
        ok := EmitRepeatedByte(fill.value, padding);
        return;
      }
      if kind != Text {
        ok := EmitSpace(padding);
        return;
      }
      ok := EmitCodePadding(padding);
    }

    /** Zeros up to a word boundary, NOPs, and zeros for what is left. */
    method EmitCodePadding(padding: nat) returns (ok: bool)
      requires section < |sections| && sections[section].size + padding <= U64_MAX && !IsZerofill(sections[section].kind)
      modifies this`sections
      ensures section < |sections| && ok
      ensures var prefix := Min((4 - old(sections)[section].size % 4) % 4, padding);
              sections == Extend(old(sections), section,
                                 Repeated(0, prefix) + Nops((padding - prefix) / 4) + Repeated(0, (padding - prefix) % 4))
    {
      hide Extend, Repeated, Nops;
      var prefix := Min((4 - sections[section].size % 4) % 4, padding);
      var rest := padding - prefix;
      var words, left := rest / 4, rest % 4;
      assert rest == 4 * words + left;
      ExtendTwice(sections, section, Repeated(0, prefix), Nops(words));
      ExtendTwice(sections, section, Repeated(0, prefix) + Nops(words), Repeated(0, left));
      ok := EmitSpace(prefix);
      ok := EmitNops(words);
      ok := EmitSpace(left);
    }

    method EmitAlignment(power: nat, fill: Option<byte>, maxSkip: Option<u64>) returns (ok: bool)
      requires section < |sections|
      modifies this`sections
      ensures section < |sections| && Longer(old(sections), sections)
      ensures if ok then AlignStep(old(Place()), power, maxSkip) == Some(Place()) else AlignStep(old(Place()), power, maxSkip) == None
      ensures AllMatch(old(sections)) ==> AllMatch(sections)
      ensures ok ==> var s := old(sections)[section];
                     Emitted(old(sections), sections, section, AlignBytes(s.kind, s.size, power, fill, maxSkip))
    {
      hide Extend, PaddingBytes, Emitted, AllMatch, DataMatches, Longer, CheckedAlignValue;
      LongerSame(sections);
      if power > MAX_ALIGN_POWER {
        return false;
      }
      Realigned(sections, section, Max(sections[section].align, power));
      sections := sections[section := sections[section].(align := Max(sections[section].align, power))];
      var current := sections[section].size;
      var aligned := CheckedAlignValue(current, power);
      if aligned.None? {
        return false;
      }
      CheckedAlignGrows(current, power);
      var padding := aligned.value - current;
      if maxSkip.Some? && padding > maxSkip.value {
        assert SlotsOf(sections) == Resized(old(Place()), section, sections[section].align, current).sections;
        return true;
      }
      ghost var before := sections;
      ok := EmitAlignmentPadding(padding, fill);
      ExtendEmits(before, section, PaddingBytes(before[section].kind, current, padding, fill));
      EmittedTwice(old(sections), before, sections, section, [], PaddingBytes(before[section].kind, current, padding, fill));
      assert [] + PaddingBytes(before[section].kind, current, padding, fill) == PaddingBytes(before[section].kind, current, padding, fill);
      ExtendPlace(before, section, PaddingBytes(before[section].kind, current, padding, fill));
      assert SlotsOf(sections) == Resized(old(Place()), section, before[section].align, aligned.value).sections;
      LongerTrans(old(sections), before, sections);
    }

    method EmitFill(repeat: u64, unit: nat, pattern: u64) returns (ok: bool)
      requires section < |sections|
      modifies this`sections
      ensures section < |sections| && Longer(old(sections), sections)
      ensures ok && Step(old(Place()), Fill(repeat, unit, pattern)).Some? ==>
                Step(old(Place()), Fill(repeat, unit, pattern)).value == Place()
      ensures AllMatch(old(sections)) ==> AllMatch(sections)
      ensures Step(old(Place()), Fill(repeat, unit, pattern)).Some? ==> (ok <==> FillTotal(repeat, unit) <= MAX_SPACE)
      ensures ok ==> Emitted(old(sections), sections, section, Copies(LE(pattern % 0x1_0000_0000, 8)[..Min(unit, 8)], repeat))
    {
      hide Copies, Emitted, Extend, LE, AllMatch, Longer, SlotsOf;
      LongerSame(sections);
      var count: nat := Min(unit, 8);
      var total := repeat * count;
      if total > U64_MAX || total > MAX_SPACE {
        return false;
      }
      if count == 0 {
        ReserveNone(Place());
        NoCopies(LE(pattern % 0x1_0000_0000, 8)[..Min(unit, 8)], repeat);
        EmittedNothing(sections, sections, section);
        return true;
      }
      var bytes := LE(pattern % 0x1_0000_0000, 8)[..count];
      ok := EmitCopies(bytes, repeat);
    }

    /** The same bytes again and again. */
    method EmitCopies(bytes: seq<byte>, repeat: nat) returns (ok: bool)
      requires section < |sections|
      modifies this`sections
      ensures section < |sections| && Longer(old(sections), sections)
      ensures ok && Reserve(old(Place()), repeat * |bytes|).Some? ==> Reserve(old(Place()), repeat * |bytes|).value == Place()
      ensures AllMatch(old(sections)) ==> AllMatch(sections)
      ensures Reserve(old(Place()), repeat * |bytes|).Some? ==> ok
      ensures ok ==> Emitted(old(sections), sections, section, Copies(bytes, repeat))
    {
      hide Extend, Emitted;
      ghost var written: seq<byte> := [];
      var i := 0;
      ExtendNone(sections, section);
      while i < repeat
        invariant 0 <= i <= repeat && section < |sections| == |old(sections)|
        invariant |written| == i * |bytes| && old(sections)[section].size + |written| <= U64_MAX
        invariant written == Copies(bytes, i)
        invariant sections == Extend(old(sections), section, written)
      {
        ExtendFits(old(sections), section, written);
        MulOrder(i + 1, repeat, |bytes|);
        assert (i + 1) * |bytes| == i * |bytes| + |bytes|;
        ok := EmitBytes(bytes);
        if !ok {
          ExtendPlace(old(sections), section, written);
          return false;
        }
        ExtendTwice(old(sections), section, written, bytes);
        ExtendFits(old(sections), section, written + bytes);
        written := written + bytes;
        i := i + 1;
      }
      ExtendPlace(old(sections), section, written);
      ExtendEmits(old(sections), section, written);
      return true;
    }

    method EmitZerofill(s: Stmt) returns (ok: bool)
      requires s.Zerofill? && section < |sections|
      modifies this`sections
      ensures section < |sections| && Longer(old(sections), sections)
      ensures ok ==> ZerofillStep(old(Place()), s.segment, s.sect, s.amount, s.power) == Some(Place())
      ensures !ok ==> ZerofillStep(old(Place()), s.segment, s.sect, s.amount, s.power) == None
      ensures AllMatch(old(sections)) ==> AllMatch(sections)
      ensures Emitted(old(sections), sections, section, [])
    {
      hide EnsureSection, CheckedAlignValue, AllMatch, Longer, Emitted, SlotsOf;
      ghost var before := sections;
      KeptWhole(before, before, section);
      if s.power > MAX_ALIGN_POWER {
        return false;
      }
      var target := EnsureSectionIndex(s.segment, s.sect);
      KeptWhole(before, sections, section);
      if target.None? {
        return false;
      }
      var i := target.value;
      ghost var ensured, middle := Place(), sections;
      if !IsZerofill(sections[i].kind) {
        return false;
      }
      var aligned := CheckedAlignValue(sections[i].size, s.power);
      if aligned.None? || aligned.value + s.amount > U64_MAX {
        return false;
      }
      CheckedAlignGrows(sections[i].size, s.power);
      sections := sections[i := sections[i].(align := Max(sections[i].align, s.power), size := aligned.value)];
      sections := sections[i := sections[i].(size := sections[i].size + s.amount)];
      assert sections == middle[i := middle[i].(align := Max(middle[i].align, s.power), size := aligned.value + s.amount)];
      ZerofillGrown(ensured, middle, i, section, Max(middle[i].align, s.power), aligned.value + s.amount);
      NothingTwice(before, middle, sections, section);
      LongerTrans(before, middle, sections);
      return true;
    }

    /** One element of a data directive. */
    method EmitValue(e: Expr, width: nat, symbols: SymbolTable) returns (ok: bool)
      requires section < |sections| && AllMatch(sections) && FixupsInside(fixups, sections)
      requires DataWidth(width)
      modifies this`sections, this`fixups
      ensures section < |sections| && AllMatch(sections) && FixupsInside(fixups, sections)
      ensures ok ==> Reserve(old(Place()), width) == Some(Place())
      ensures ok <==> Reserve(old(Place()), width).Some? && ValueBytes(e, width, symbols).Some?
      ensures ok ==> Emitted(old(sections), sections, section, ValueBytes(e, width, symbols).value)
      ensures ok ==> fixups == old(fixups) + ValueFixups(e, width, symbols, section, old(sections)[section].size)
      ensures !ok ==> sections == old(sections)
    {
      hide Extend, Emitted, Classify, Reserve, AllMatch, SlotsOf, SignedFits, UnsignedFits;
      var form := ClassifyWithLookup(e, symbols);
      if form.Err? {
        return false;
      }
      if Patched(form.value, width) {
        var offset := sections[section].size % 0x1_0000_0000;
        ok := EmitField(Repeated(0, width));
        if ok {
          fixups := fixups + [Fixup(section, offset, width, if width == 8 then Data64(form.value) else Data32(e))];
        }
      } else if form.value.AbsoluteForm? && SignedFits(form.value.constant, 8 * width) {
        ok := EmitField(LE(form.value.constant, width));
      } else if form.value.UnsignedForm? && UnsignedFits(form.value.magnitude, 8 * width) {
        ok := EmitField(LE(form.value.magnitude, width));
      } else {
        ok := false;
      }
    }

    method EmitField(bytes: seq<byte>) returns (ok: bool)
      requires section < |sections| && AllMatch(sections) && FixupsInside(fixups, sections)
      modifies this`sections
      ensures section < |sections| && AllMatch(sections) && FixupsInside(fixups, sections)
      ensures ok <==> Reserve(old(Place()), |bytes|).Some?
      ensures ok ==> Reserve(old(Place()), |bytes|) == Some(Place())
      ensures ok ==> Emitted(old(sections), sections, section, bytes)
      ensures ok ==> |sections[section].data| == old(sections)[section].size + |bytes|
                     && sections[section].data == old(sections)[section].data + bytes
      ensures !ok ==> sections == old(sections)
    {
      hide Emitted, FixupsInside;
      ok := EmitBytes(bytes);
      if ok {
        ExtendPlace(old(sections), section, bytes);
        ExtendEmits(old(sections), section, bytes);
        FixupsLonger(fixups, old(sections), sections);
      }
    }

    method EmitValues(width: nat, values: seq<Expr>, symbols: SymbolTable) returns (ok: bool)
      requires section < |sections| && AllMatch(sections) && FixupsInside(fixups, sections)
      requires DataWidth(width)
      modifies this`sections, this`fixups
      ensures section < |sections| && AllMatch(sections) && FixupsInside(fixups, sections)
      ensures ok && Reserve(old(Place()), |values| * width).Some? ==> Reserve(old(Place()), |values| * width).value == Place()
      ensures Reserve(old(Place()), |values| * width).Some? ==> (ok <==> ValuesBytes(values, width, symbols).Some?)
      ensures ok ==> ValuesBytes(values, width, symbols).Some?
                     && Emitted(old(sections), sections, section, ValuesBytes(values, width, symbols).value)
      ensures ok ==> fixups == old(fixups) + ValuesFixups(values, width, symbols, section, old(sections)[section].size)
    {
      hide AllMatch, FixupsInside, Longer, Reserve, Resized, SlotsOf, Emitted, ValueBytes, Classify, ValueFixups, Patched,
        DataMatches, ValuesWritten,
        ValuesBytes, ValuesFixups;
      ghost var start := Place();
      ghost var done: nat := 0;
      NoValueWritten(sections, fixups, section, values, width, symbols);
      ReserveNone(start);
      var i := 0;
      while i < |values|
        invariant 0 <= i <= |values| && section < |sections| && InSection(start)
        invariant AllMatch(sections) && FixupsInside(fixups, sections)
        invariant ValuesWritten(old(sections), sections, old(fixups), fixups, section, values[..i], width, symbols)
        invariant Reserve(start, done) == Some(Place()) || (i == 0 && Place() == start)
        invariant done == i * width && sections[section].size == old(sections)[section].size + done
      {
        ghost var before, place, fixed := sections, Place(), fixups;
        assert values[..i + 1][..i] == values[..i] && (i + 1) * width == i * width + width;
        MulOrder(i + 1, |values|, width);
        if Reserve(start, |values| * width).Some? {
          ReservePart(start, done, width, |values| * width);
        }
        ok := EmitValue(values[i], width, symbols);
        if !ok {
          if Reserve(start, |values| * width).Some? {
            assert Reserve(place, width).Some?;
            ValuesRefused(values, i, width, symbols);
          }
          return false;
        }
        ValueWritten(old(sections), before, sections, old(fixups), fixed, section, values, i, width, symbols);
        ReserveMore(start, done, width);
        ReservedSize(place, width);
        done := done + width;
        i := i + 1;
      }
      assert values[..i] == values;
      ValuesAre(old(sections), sections, old(fixups), fixups, section, values, width, symbols);
      return true;
    }

    // ---- one statement of the emission pass -----------------------------------------------------

    ghost predicate Emitting()
      reads this`section, this`sections, this`fixups
    {
      section < |sections| && AllMatch(sections) && FixupsInside(fixups, sections)
    }

    /** Symbol lookup: a name with a value first, then a label. */
    function Table(): SymbolTable
      reads this`labels, cursor`current
    {
      TableOf(cursor.current, labels)
    }

    /** The next `.set` directive is the one the cursor stands at. */
    ghost predicate CursorAt(s: Stmt)
      reads cursor
    {
      && cursor.Valid()
      && (s.SetAbsolute? ==> cursor.next < |cursor.values| && cursor.problem.assignments[cursor.next].name == s.name)
    }

    method ProcessStmt(s: Stmt, symbols: SymbolTable) returns (ok: bool)
      requires Emitting() && WellFormedStmt(s) && CursorAt(s)
      modifies this`section, this`sections, this`fixups, this`reached, cursor`next, cursor`current
      ensures Emitting() && cursor.Valid() && cursor.next == old(cursor.next) + |AssignmentOf(s)|
      ensures ok && Step(old(Place()), s).Some? ==> Step(old(Place()), s).value == Place()
      ensures reached == old(reached) + [Here(old(Place()))]
      ensures Step(old(Place()), s).Some? ==> (ok <==> Writes(old(sections)[old(section)], s, symbols).Some?)
      ensures Step(old(Place()), s).Some? && ok ==>
                Emitted(old(sections), sections, old(section), Writes(old(sections)[old(section)], s, symbols).value)
      ensures ok ==> fixups == old(fixups) + StmtFixups(s, symbols, old(section), old(sections)[old(section)].size)
    {
      hide Step, StmtBytes, StmtFixups, SlotsOf, AllMatch, FixupsInside, Emitted, SetScope.Bound, SetScope.LastBound, SetScope.CurrentAt,
        WellFormedStmt;
      reached := reached + [Here(Place())];
      if s.SetAbsolute? {
        WritesNothing(Place(), s, sections, section, symbols);
        var activated := cursor.Activate(s.name);
        ok := activated.Ok?;
      } else if s.SwitchTo? || s.Align? || s.Fill? || s.Zerofill? {
        NoFixups(s, symbols, section, sections[section].size);
        ok := ProcessMove(s, symbols);
      } else if s.Instruction? || s.InstructionWithReloc? || s.DataValues? || s.Ascii? || s.Space? {
        ok := ProcessData(s, symbols);
      } else {
        WritesNothing(Place(), s, sections, section, symbols);
        ok := true;
      }
    }

    /** The statements that write bytes of their own. */
    method ProcessData(s: Stmt, symbols: SymbolTable) returns (ok: bool)
      requires Emitting() && WellFormedStmt(s)
      requires s.Instruction? || s.InstructionWithReloc? || s.DataValues? || s.Ascii? || s.Space?
      modifies this`sections, this`fixups
      ensures Emitting()
      ensures ok && Step(old(Place()), s).Some? ==> Step(old(Place()), s).value == Place()
      ensures Step(old(Place()), s).Some? ==> (ok <==> Writes(old(sections)[section], s, symbols).Some?)
      ensures Step(old(Place()), s).Some? && ok ==>
                Emitted(old(sections), sections, section, Writes(old(sections)[section], s, symbols).value)
      ensures ok ==> fixups == old(fixups) + StmtFixups(s, symbols, section, old(sections)[section].size)
    {
      hide Reserve, Extend, AllMatch, FixupsInside, Longer, Emitted, ValuesBytes, ValuesFixups, LE, SlotsOf;
      match s {
        case Instruction(word) => ok := EmitField(LE(word, 4));
        case InstructionWithReloc(word) => ok := EmitRelocated(word);
        case DataValues(width, values) => ok := EmitValues(width, values, symbols);
        case Ascii(text) => ok := EmitField(text);
        case Space(amount) => ok := ProcessSpace(amount);
      }
    }

    /** The statements that switch sections or fill room; they leave no fixups. */
    method ProcessMove(s: Stmt, ghost symbols: SymbolTable) returns (ok: bool)
      requires Emitting() && WellFormedStmt(s) && (s.SwitchTo? || s.Align? || s.Fill? || s.Zerofill?)
      modifies this`section, this`sections
      ensures Emitting()
      ensures ok && Step(old(Place()), s).Some? ==> Step(old(Place()), s).value == Place()
      ensures Step(old(Place()), s).Some? ==> (ok <==> Writes(old(sections)[old(section)], s, symbols).Some?)
      ensures Step(old(Place()), s).Some? && ok ==>
                Emitted(old(sections), sections, old(section), Writes(old(sections)[old(section)], s, symbols).value)
    {
      hide EnsureSection, CheckedAlignValue, AlignStep, ZerofillStep, Reserve, Extend, AllMatch, FixupsInside, Longer, Emitted,
        AlignBytes, Copies, LE;
      ghost var before := sections;
      match s {
        case SwitchTo(segment, sect) =>
          ok := SwitchSection(segment, sect);
          EmittedNothing(before, sections, old(section));
        case Align(power, fill, maxSkip) => ok := EmitAlignment(power, fill, maxSkip);
        case Fill(repeat, unit, pattern) => ok := EmitFill(repeat, unit, pattern);
        case Zerofill(_, _, _, _, _) => ok := EmitZerofill(s);
      }
      FixupsLonger(fixups, before, sections);
    }

    method EmitRelocated(word: nat) returns (ok: bool)
      requires Emitting()
      modifies this`sections, this`fixups
      ensures Emitting()
      ensures ok <==> Reserve(old(Place()), 4).Some?
      ensures ok ==> Reserve(old(Place()), 4) == Some(Place())
      ensures ok ==> Emitted(old(sections), sections, section, LE(word, 4))
      ensures ok ==> fixups == old(fixups) + [Fixup(section, old(sections)[section].size % 0x1_0000_0000, 4, Word)]
    {
      hide Emitted, Reserve;
      var offset := sections[section].size % 0x1_0000_0000;
      ok := EmitField(LE(word, 4));
      if ok {
        fixups := fixups + [Fixup(section, offset, 4, Word)];
      }
    }

    method ProcessSpace(amount: u64) returns (ok: bool)
      requires Emitting()
      modifies this`sections
      ensures Emitting()
      ensures ok ==> Step(old(Place()), Space(amount)) == Some(Place())
      ensures !ok ==> Step(old(Place()), Space(amount)) == None
      ensures ok ==> Emitted(old(sections), sections, section, Repeated(0, amount))
    {
      hide Emitted, AllMatch, FixupsInside, Longer, Extend;
      if amount > MAX_SPACE {
        return false;
      }
      ok := EmitSpace(amount);
      if ok {
        ExtendPlace(old(sections), section, Repeated(0, amount));
        ExtendFits(old(sections), section, Repeated(0, amount));
        ExtendEmits(old(sections), section, Repeated(0, amount));
        FixupsLonger(fixups, old(sections), sections);
      }
    }

    /** The value tables at each statement: those after the `.set` directives in front of it. */
    ghost function TablesFor(stmts: seq<Stmt>): (tables: seq<SymbolTable>)
      requires cursor.Prepared() && |SetList(stmts)| <= |cursor.values|
      reads this`labels, cursor`problem, cursor`aliases, cursor`values, cursor`initial, cursor`final
    {
      TablesUnder(stmts, cursor.problem, cursor.aliases, cursor.values, cursor.initial, labels)
    }

    /** The cursor's list is that of the statements' `.set` directives. */
    ghost predicate Lists(stmts: seq<Stmt>)
      reads cursor`problem, cursor`aliases, cursor`values, cursor`initial, cursor`final
    {
      && cursor.Prepared() && |cursor.values| == |SetList(stmts)|
      && forall i :: 0 <= i < |cursor.values| ==> cursor.problem.assignments[i].name == SetList(stmts)[i].name
    }

    method Process(stmts: seq<Stmt>, ghost tables: seq<SymbolTable>) returns (ok: bool)
      requires Emitting() && reached == [] && fixups == [] && Lists(stmts) && cursor.Valid() && cursor.next == 0
      requires tables == TablesFor(stmts)
      requires forall i :: 0 <= i < |stmts| ==> WellFormedStmt(stmts[i])
      requires Run(Place(), stmts).Some?
      modifies this`section, this`sections, this`fixups, this`reached, cursor`next, cursor`current
      ensures Emitting() && Lists(stmts) && tables == TablesFor(stmts)
      ensures ok ==> cursor.Valid() && cursor.next == |SetList(stmts)|
      ensures ok ==> Run(old(Place()), stmts) == Some(Place())
      ensures ok ==> |reached| == |stmts| && forall k :: 0 <= k < |stmts| ==> ReachedAt(old(Place()), stmts, k, reached[k])
      ensures ok ==> BytesPlaced(stmts, reached, sections, tables) && Follow(stmts, reached, sections, tables)
      ensures ok ==> fixups == FixupsUpTo(stmts, reached, tables, |stmts|)
      ensures !ok ==> exists k :: 0 <= k < |stmts| && RefusedFrom(old(Place()), stmts, k, tables)
    {
      hide Step, StmtBytes, Emitted, AllMatch, FixupsInside, SlotsOf, Run, SetScope.Bound, SetScope.LastBound, TableOf, StmtFixups, Follow,
        Underway, BytesPlaced, ReachedAt, FixupsUpTo, Writes, WellFormedStmt, SetScope.CurrentAt, RefusedFrom, SetList, TablesUnder;
      ghost var start := Place();
      NotUnderway(start, stmts, sections, tables);
      NoSets(stmts);
      var i := 0;
      while i < |stmts|
        invariant 0 <= i <= |stmts| && Emitting() && Lists(stmts) && cursor.Valid() && cursor.next == |SetList(stmts[..i])|
        invariant tables == TablesFor(stmts)
        invariant Underway(start, stmts, i, Place(), reached, sections, tables, fixups)
      {
        ghost var before, g, was, fixed := sections, Place(), reached, fixups;
        StepHere(start, stmts, i, g, reached, sections, tables, fixups);
        SetHere(stmts, i);
        SetsFewer(stmts, i);
        var symbols := Table();
        assert symbols == tables[i];
        ok := ProcessStmt(stmts[i], symbols);
        if !ok {
          RefusedHere(start, stmts, i, g, was, before, tables, fixed);
          return false;
        }
        UnderwayNext(start, stmts, i, g, Place(), was, before, sections, tables, fixed);
        i := i + 1;
      }
      assert stmts[..i] == stmts;
      UnderwayAll(start, stmts, Place(), reached, sections, tables, fixups);
      return true;
    }

    // ---- between the passes -----------------------------------------------------------------------

    /** Reserve the generated sections behind the source's own. */
    method PrepareUnwindLayout() returns (ok: bool)
      requires Valid() && proc == null
      modifies this`sections, this`sourceSections
      ensures section < |sections| && sourceSections == |old(sections)| <= |sections|
      ensures ok <==> AllSlots(old(View())).Some?
      ensures ok ==> SlotsOf(sections) == AllSlots(old(View())).value
    {
      hide FramesSize;
      sourceSections := |sections|;
      var unwind := UnwindSlots(|rows|, Lengths(frames));
      if unwind.None? {
        return false;
      }
      var i := 0;
      while i < |unwind.value|
        invariant 0 <= i <= |unwind.value| && |sections| == |old(sections)| + i && sourceSections == |old(sections)|
        invariant SlotsOf(sections) == SlotsOf(old(sections)) + unwind.value[..i]
      {
        sections := sections + [FromSlot(unwind.value[i])];
        i := i + 1;
      }
      assert unwind.value[..i] == unwind.value;
      return true;
    }

    /** Fix the section addresses, remember the whole layout, and resolve the `.set` directives. */
    method PrepareExpressionState() returns (r: Result<(), AsmError>)
      requires forall i :: 0 <= i < |sections| ==> sections[i].align < 64
      modifies this`bases, this`expected, this`labels, this`absolutes, cursor
      ensures r == Err(LayoutOverflow) <==> Overflows(Extents(SlotsOf(sections)))
      ensures r.Err? ==> r == Err(LayoutOverflow) || r == Err(SetFailed)
      ensures r == Err(SetFailed) <==> !Overflows(Extents(SlotsOf(sections))) && SetsFail(assignments, old(labels))
      ensures r.Ok? ==> expected == SlotsOf(sections) && BasesFor(Extents(SlotsOf(sections)), bases)
      ensures r.Ok? ==> Resolves(cursor, assignments, old(labels))
      ensures r.Ok? ==> SetScope.Aliased(old(labels), assignments, |assignments|) == Some(labels)
    {
      hide Overflows, BasesFor, Resolves, SetsFail, SetScope.Aliased;
      var addresses := SectionBaseAddresses(Extents(SlotsOf(sections)));
      BasesFailExactly(Extents(SlotsOf(sections)));
      if addresses.Err? {
        return Err(LayoutOverflow);
      }
      bases, expected := addresses.value, SlotsOf(sections);
      var resolved := ResolveSets();
      return if resolved then Ok(()) else Err(SetFailed);
    }

    /** Values for the `.set` directives, places for the aliases among them. */
    method ResolveSets() returns (ok: bool)
      modifies this`labels, this`absolutes, cursor
      ensures ok <==> !SetsFail(assignments, old(labels))
      ensures ok ==> Resolves(cursor, assignments, old(labels))
      ensures ok ==> SetScope.Aliased(old(labels), assignments, |assignments|) == Some(labels)
    {
      hide SetScope.Bound, SetScope.LastBound, Resolver.Blames, Resolver.Evaluates, SetsFail, SetScope.Aliased, SetScope.AliasOf, LabelValues;
      ghost var was := labels;
      var prepared := cursor.Prepare(assignments, LabelValues(labels));
      if prepared.Err? {
        BlamedFails(assignments, was, prepared.error);
        return false;
      }
      NoneBlamed(assignments, was, cursor.values);
      ok := ApplySetAliases();
      if !ok {
        UnaliasedFails(assignments, was);
      }
    }

    /** Every alias gets its target's place and is no longer a name with a value. */
    method ApplySetAliases() returns (ok: bool)
      requires cursor.aliases == SetScope.Aliases(assignments)
      modifies this`labels, this`absolutes
      ensures ok <==> SetScope.Aliased(old(labels), assignments, |assignments|).Some?
      ensures ok ==> SetScope.Aliased(old(labels), assignments, |assignments|) == Some(labels)
    {
      hide SetScope.AliasOf;
      var i := 0;
      while i < |assignments|
        invariant 0 <= i <= |assignments| && SetScope.Aliased(old(labels), assignments, i) == Some(labels)
      {
        if cursor.aliases[i].Some? {
          var target := cursor.aliases[i].value;
          if target !in labels {
            AliasedStops(old(labels), assignments, i + 1);
            return false;
          }
          labels := labels[assignments[i].name := labels[target]];
          absolutes := absolutes - {assignments[i].name};
        }
        i := i + 1;
      }
      return true;
    }

    /** Empty the source sections; alignments stay. */
    method ResetForEmission()
      requires 0 < sourceSections <= |sections| && cursor.Prepared()
      modifies this`section, this`sections, this`fixups, this`reached, cursor`next, cursor`current
      ensures Emitting() && reached == [] && fixups == [] && cursor.Valid() && cursor.next == 0
      ensures Place() == Emptied(Geometry(0, SlotsOf(old(sections))[..sourceSections]))
    {
      section, fixups, reached := 0, [], [];
      cursor.Reset();
      sections := sections[..sourceSections];
      var i := 0;
      ghost var kept := sections;
      while i < |sections|
        invariant 0 <= i <= |sections| == |kept| && section == 0 && fixups == [] && reached == [] && cursor.Valid() && cursor.next == 0
        invariant forall k :: 0 <= k < i ==> sections[k] == kept[k].(size := 0, data := [])
        invariant forall k :: i <= k < |sections| ==> sections[k] == kept[k]
      {
        sections := sections[i := sections[i].(size := 0, data := [])];
        i := i + 1;
      }
      assert SlotsOf(sections) == Emptied(Geometry(0, SlotsOf(old(sections))[..sourceSections])).sections;
    }

    // ---- the generated sections ---------------------------------------------------------------------

    method MaterializeCompactUnwind()
      requires |rows| * COMPACT_ENTRY <= U64_MAX
      modifies this`sections
      ensures if rows == [] then sections == old(sections)
              else && |sections| == |old(sections)| + 1 && sections[..|old(sections)|] == old(sections)
                   && SlotOf(sections[|old(sections)|]) == CompactSlot(|rows|)
                   && sections[|old(sections)|].data == CompactBytes(rows) && DataMatches(sections[|old(sections)|])
    {
      hide CompactBytes, SlotOf;
      if rows == [] {
        return;
      }
      var data := CompactData();
      CompactLength(rows);
      sections := sections + [Section("__LD", "__compact_unwind", CompactUnwindKind, 3, |data|, data)];
      assert SlotOf(sections[|old(sections)|]) == CompactSlot(|rows|) by { CompactSlotOf(sections[|old(sections)|], |rows|); }
    }

    method CompactData() returns (data: seq<byte>)
      ensures data == CompactBytes(rows)
    {
      hide LE, CompactBytes;
      data := [];
      var i := 0;
      CompactNext(rows, 0);
      while i < |rows|
        invariant 0 <= i <= |rows| && data == CompactBytes(rows[..i])
      {
        CompactNext(rows, i);
        data := data + LE(rows[i].start, 8) + LE(rows[i].length, 4) + LE(rows[i].encoding, 4) + LE(0, 8) + LE(0, 8);
        i := i + 1;
      }
      assert rows[..i] == rows;
    }

    method MaterializeEhFrame() returns (ok: bool)
      requires frames == [] || FramesFit(Lengths(frames))
      modifies this`sections
      ensures ok
      ensures if frames == [] then sections == old(sections)
              else && |sections| == |old(sections)| + 1 && sections[..|old(sections)|] == old(sections)
                   && SlotOf(sections[|old(sections)|]) == FrameSlot(Lengths(frames))
                   && sections[|old(sections)|].data == FrameBytes(frames) && DataMatches(sections[|old(sections)|])
    {
      if frames == [] {
        return true;
      }
      var data;
      data, ok := FrameData();
      FrameLength(frames);
      sections := sections + [Section("__TEXT", "__eh_frame", EhFrameKind, 3, |data|, data)];
    }

    method FrameData() returns (data: seq<byte>, ok: bool)
      requires FramesFit(Lengths(frames))
      ensures ok && data == FrameBytes(frames)
    {
      hide FdeBody, LE, FramesSize, FrameBytes;
      data := CIE;
      var i := 0;
      NoFrames();
      while i < |frames|
        invariant 0 <= i <= |frames| && data == FrameBytes(frames[..i])
      {
        FrameBytesNext(frames, i);
        FdeLength(|data|, frames[i]);
        var fde := FdeBody(|data|, frames[i]);
        assert FDE_FIXED + Lengths(frames)[i] - 4 <= U32_MAX;
        if |fde| > U32_MAX {
          return data, false;
        }
        data := data + LE(|fde|, 4) + fde;
        i := i + 1;
      }
      assert frames[..i] == frames;
      ok := true;
    }

    /** Both passes must have produced the same layout; the error is `LayoutChanged`. */
    method Finish() returns (r: Result<(), AsmError>)
      requires AllMatch(sections) && |rows| * COMPACT_ENTRY <= U64_MAX && (frames == [] || FramesFit(Lengths(frames)))
      requires forall i :: 0 <= i < |sections| ==> sections[i].align < 64
      modifies this`sections
      ensures r.Ok? ==> SlotsOf(sections) == expected && AllMatch(sections)
      ensures old(sections) <= sections && UnwindSections(sections, |old(sections)|, rows, frames)
      ensures r.Ok? <==> SlotsOf(old(sections)) + UnwindSlots(|rows|, Lengths(frames)).value == expected
                         && !Overflows(Extents(expected)) && BasesFor(Extents(expected), bases)
    {
      hide Overflows, BasesFor, FramesSize, DataMatches, UnwindSlots, FramesFit, CompactSlot, FrameSlot, CompactBytes,
        FrameBytes, UnwindSections;
      var ok := MaterializeUnwind();
      if !ok {
        return Err(FrameTooLong);
      }
      var slots := SlotsOf(sections);
      ExtentsAligned(slots);
      var addresses := SectionBaseAddresses(Extents(slots));
      BasesFailExactly(Extents(slots));
      if addresses.Err? {
        return Err(LayoutOverflow);
      }
      if addresses.value != bases || slots != expected {
        if slots == expected && BasesFor(Extents(expected), bases) {
          BasesUnique(Extents(expected), addresses.value, bases);
        }
        return Err(LayoutChanged);
      }
      return Ok(());
    }

    method MaterializeUnwind() returns (ok: bool)
      requires AllMatch(sections) && |rows| * COMPACT_ENTRY <= U64_MAX && (frames == [] || FramesFit(Lengths(frames)))
      requires forall i :: 0 <= i < |sections| ==> sections[i].align < 64
      modifies this`sections
      ensures ok && AllMatch(sections) && (forall i :: 0 <= i < |sections| ==> sections[i].align < 64)
      ensures old(sections) <= sections && UnwindSections(sections, |old(sections)|, rows, frames)
      ensures UnwindSlots(|rows|, Lengths(frames)).Some?
      ensures SlotsOf(sections) == SlotsOf(old(sections)) + UnwindSlots(|rows|, Lengths(frames)).value
    {
      hide FramesSize, DataMatches, FramesFit, CompactBytes, FrameBytes;
      ghost var before := sections;
      MaterializeCompactUnwind();
      ghost var middle := sections;
      ok := MaterializeEhFrame();
      MaterializedMatch(before, middle);
      MaterializedMatch(middle, sections);
      MaterializedSlots(before, middle, if rows != [] then [CompactSlot(|rows|)] else []);
      MaterializedSlots(middle, sections, if frames != [] then [FrameSlot(Lengths(frames))] else []);
      assert SlotsOf(sections) == SlotsOf(before)
          + ((if rows != [] then [CompactSlot(|rows|)] else []) + (if frames != [] then [FrameSlot(Lengths(frames))] else []));
    }

    // ---- the whole run --------------------------------------------------------------------------------

    /** What is fixed before the emission pass and kept by it: the whole layout, its addresses, names and records. */
    ghost predicate Fixed(stmts: seq<Stmt>)
      reads this`expected, this`bases, this`labels, this`rows, this`frames
      reads cursor`problem, cursor`aliases, cursor`values, cursor`initial, cursor`final
    {
      && LayoutAll(stmts).Some?
      && var l := LayoutAll(stmts).value;
      && AllSlots(l) == Some(expected) && GeometryOk(l.geometry) && l.rows == |rows| && l.frames == Lengths(frames)
      && BasesFor(Extents(expected), bases) && !Overflows(Extents(expected))
      && Resolves(cursor, SetList(stmts), l.labels) && SetScope.Aliased(l.labels, SetList(stmts), |SetList(stmts)|) == Some(labels)
      && Described(rows, frames, Procs(stmts))
    }

    /** Everything the emission pass relies on. */
    ghost predicate Ready(stmts: seq<Stmt>)
      reads this, cursor
    {
      && Fixed(stmts)
      && Emitting() && reached == [] && fixups == [] && Place() == Emptied(LayoutAll(stmts).value.geometry)
      && cursor.Valid() && cursor.next == 0 && Lists(stmts)
    }

    /** What the layout pass leaves: the finished layout with the generated sections, and the records of the procedures. */
    ghost predicate Collected(stmts: seq<Stmt>)
      reads this`sections, this`sourceSections, this`labels, this`assignments, this`rows, this`frames
    {
      && !LayoutFails(stmts)
      && var l := LayoutAll(stmts).value;
      && AllSlots(l) == Some(SlotsOf(sections)) && sourceSections == |l.geometry.sections| && GeometryOk(l.geometry)
      && labels == l.labels && assignments == SetList(stmts)
      && |rows| == l.rows && Lengths(frames) == l.frames && Described(rows, frames, Procs(stmts))
    }

    /** The layout pass. */
    method LayOut(stmts: seq<Stmt>) returns (ok: bool)
      requires Valid() && View() == InitialLayout() && proc == null && reached == [] && assignments == []
      requires forall i :: 0 <= i < |stmts| ==> WellFormedStmt(stmts[i])
      modifies this
      ensures ok <==> !LayoutFails(stmts)
      ensures ok ==> Collected(stmts)
    {
      hide LayoutAll, AllSlots, Described, Procs, GeometryOk, SetList, SlotsOf, Lengths, CfiProc.Valid, WellFormedStmt, ReachedAt;
      var collected := CollectLayout(stmts);
      if !collected {
        return false;
      }
      GeometryAligned(stmts);
      ok := PrepareUnwindLayout();
    }

    /** The layout pass and what is computed between the passes. */
    method PrepareEmission(stmts: seq<Stmt>) returns (r: Result<(), AsmError>)
      requires Valid() && View() == InitialLayout() && proc == null && reached == [] && assignments == []
      requires forall i :: 0 <= i < |stmts| ==> WellFormedStmt(stmts[i])
      modifies this, cursor
      ensures if Failure(stmts).Some? then r == Err(Failure(stmts).value) else r.Ok?
      ensures r.Ok? ==> Ready(stmts)
    {
      hide LayoutAll, AllMatch, Overflows, BasesFor, Emptied, AllSlots, Described, SetsFail, SetScope.Bound, SetScope.LastBound,
        SetScope.Aliased, Procs, SetScope.CurrentAt, Resolver.Evaluates, LabelValues, GeometryOk, FixupsInside, SetList, SlotsOf, Lengths,
        Extents, SetScope.AliasOf, WellFormedStmt, AssignmentOf;
      var laidOut := LayOut(stmts);
      if !laidOut {
        return Err(LayoutFailed);
      }
      ghost var l := LayoutAll(stmts).value;
      r := PrepareNames(stmts);
      if r.Err? {
        return;
      }
      SourceSlots(l, expected, |l.geometry.sections|);
      ResetForEmission();
    }

    /** Addresses, values and places of names once the layout is finished. */
    method PrepareNames(stmts: seq<Stmt>) returns (r: Result<(), AsmError>)
      requires Collected(stmts)
      modifies this`bases, this`expected, this`labels, this`absolutes, cursor
      ensures if Failure(stmts).Some? then r == Err(Failure(stmts).value) else r.Ok?
      ensures r.Ok? ==> Fixed(stmts) && Lists(stmts) && expected == SlotsOf(sections)
    {
      hide LayoutAll, Overflows, BasesFor, AllSlots, Described, SetsFail, SetScope.Bound, SetScope.LastBound, SetScope.Aliased, Procs,
        Resolver.Evaluates, LabelValues, GeometryOk, SetList, SlotsOf, Lengths, Extents, SetScope.AliasOf;
      SlotsAligned(LayoutAll(stmts).value, sections);
      r := PrepareExpressionState();
    }

    /** The `.set` directives have their values and places. */
    ghost predicate NamesResolved(stmts: seq<Stmt>)
      reads this`labels, cursor`problem, cursor`aliases, cursor`values, cursor`initial, cursor`final
    {
      && LayoutAll(stmts).Some? && Lists(stmts)
      && Resolves(cursor, SetList(stmts), LayoutAll(stmts).value.labels)
      && SetScope.Aliased(LayoutAll(stmts).value.labels, SetList(stmts), |SetList(stmts)|) == Some(labels)
    }

    /**
      The finished object is the reserved one: every section is as long as reserved and full, the addresses
      are those of the layout, statements and labels are where layout put them.
     */
    ghost predicate AsLaidOut(stmts: seq<Stmt>)
      reads this`sections, this`bases, this`reached
    {
      && LayoutAll(stmts).Some?
      && var l := LayoutAll(stmts).value;
      && AllSlots(l) == Some(SlotsOf(sections)) && AllMatch(sections) && BasesFor(Extents(SlotsOf(sections)), bases)
      && SamePlaces(stmts, reached) && LabelsAt(stmts, reached, l.labels)
    }

    /** The generated sections stand behind the source's own and describe the procedures. */
    ghost predicate UnwindWritten(stmts: seq<Stmt>)
      reads this`sections, this`rows, this`frames
    {
      && LayoutAll(stmts).Some?
      && Described(rows, frames, Procs(stmts))
      && UnwindSections(sections, |LayoutAll(stmts).value.geometry.sections|, rows, frames)
    }

    /** Every statement's bytes stand at its place, one behind another, and the fixups are those of all statements. */
    ghost predicate BytesWritten(stmts: seq<Stmt>)
      requires NamesResolved(stmts)
      reads this`sections, this`reached, this`fixups, this`labels
      reads cursor`problem, cursor`aliases, cursor`values, cursor`initial, cursor`final
    {
      var tables := TablesFor(stmts);
      && BytesPlaced(stmts, reached, sections, tables) && Follow(stmts, reached, sections, tables)
      && fixups == FixupsUpTo(stmts, reached, tables, |stmts|)
    }

    /** Emission has bytes for every statement where layout put it, under the names' values there. */
    ghost predicate Accepted(stmts: seq<Stmt>)
      requires NamesResolved(stmts)
      reads this`labels, cursor`problem, cursor`aliases, cursor`values, cursor`initial, cursor`final
    {
      NothingRefused(stmts, TablesFor(stmts))
    }

    /**
      Both passes over one statement list. If the run succeeds, every statement was emitted where layout
      had put it, under the names' values at that point, labels denote those places, every section is as
      long as reserved and full, the addresses are those of the reserved layout, and the generated sections
      describe the procedures. The two passes never disagree.
     */
    method AssembleLocated(stmts: seq<Stmt>) returns (r: Result<(), AsmError>)
      requires Valid() && View() == InitialLayout() && proc == null && reached == [] && assignments == []
      requires forall i :: 0 <= i < |stmts| ==> WellFormedStmt(stmts[i])
      modifies this, cursor
      ensures match Failure(stmts)
              case Some(e) => r == Err(e)
              case None => NamesResolved(stmts) && if Accepted(stmts) then r.Ok? else r == Err(EmissionFailed)
      ensures r.Ok? ==> NamesResolved(stmts) && AsLaidOut(stmts) && BytesWritten(stmts) && UnwindWritten(stmts)
      ensures r.Ok? ==> cursor.Valid() && cursor.next == |SetList(stmts)|
    {
      hide LayoutAll, AllMatch, AllSlots, SamePlaces, LabelsAt, NothingRefused, Failure, Described, UnwindSections, TableOf,
        Procs, TablesUnder, Follow, FixupsUpTo, SlotsOf, SetList, BytesPlaced, BasesFor, Extents, SetScope.Bound, SetScope.LastBound,
        SetScope.Aliased, SetScope.CurrentAt, Resolver.Evaluates, SetScope.AliasOf, LabelValues, Assembly.Ready, WellFormedStmt;
      r := PrepareEmission(stmts);
      if r.Ok? {
        r := EmitAll(stmts);
      }
    }

    /** The emission pass and the generated sections. */
    method EmitAll(stmts: seq<Stmt>) returns (r: Result<(), AsmError>)
      requires Ready(stmts) && forall i :: 0 <= i < |stmts| ==> WellFormedStmt(stmts[i])
      modifies this`section, this`sections, this`fixups, this`reached, cursor`next, cursor`current
      ensures r.Err? ==> r == Err(EmissionFailed)
      ensures NamesResolved(stmts) && (r.Ok? <==> Accepted(stmts))
      ensures r.Ok? ==> AsLaidOut(stmts) && BytesWritten(stmts) && UnwindWritten(stmts)
      ensures r.Ok? ==> cursor.Valid() && cursor.next == |SetList(stmts)|
    {
      hide Run, LayoutAll, AllMatch, Overflows, BasesFor, UnwindSlots, FramesFit, Emptied, AllSlots, SamePlaces, LabelsAt, RefusedFrom,
        NothingRefused, PlacedAt, Described, UnwindSections, SetScope.Bound, SetScope.LastBound, SetScope.Aliased, TableOf, Procs,
        TablesUnder, SetScope.CurrentAt, Resolver.Evaluates, Follow, FixupsUpTo, SlotsOf, Lengths, Extents, SetList, BytesPlaced, ReachedAt,
        FixupsInside, SetScope.AliasOf, WellFormedStmt, LabelValues;
      ghost var l := LayoutAll(stmts).value;
      LayoutAllGeometry(stmts);
      PassesMeet(stmts);
      ghost var tables := TablesFor(stmts);
      var emitted := Process(stmts, tables);
      if !emitted {
        RefusalSeen(stmts, tables);
        return Err(EmissionFailed);
      }
      ghost var written := sections;
      SourceSlots(l, expected, |l.geometry.sections|);
      UnwindFits(l);
      assert SlotsOf(sections) == l.geometry.sections;
      AlignedBySlots(sections);
      r := Finish();
      BytesKept(stmts, reached, written, sections, tables);
      FollowKept(stmts, reached, written, sections, tables);
      ReachedSame(stmts, reached);
      LabelsReached(stmts, reached);
      NoneRefused(stmts, reached, sections, tables);
    }
  }

  // ---- why a run fails before emission -------------------------------------------------------

  /** Layout refuses a statement, a procedure is left open, or the generated sections have no size. */
  ghost predicate LayoutFails(stmts: seq<Stmt>) {
    LayoutAll(stmts).None? || LayoutAll(stmts).value.proc.Some? || AllSlots(LayoutAll(stmts).value).None?
  }

  /** The first check that fails: layout, the 64-bit address space, the `.set` directives. */
  ghost function Failure(stmts: seq<Stmt>): Option<AsmError> {
    if LayoutFails(stmts) then Some(LayoutFailed)
    else if Overflows(Extents(AllSlots(LayoutAll(stmts).value).value)) then Some(LayoutOverflow)
    else if SetsFail(SetList(stmts), LayoutAll(stmts).value.labels) then Some(SetFailed)
    else None
  }

  // ---- symbols and `.set` directives ----------------------------------------------------------

  /** What a name means: its value if it has one, else its label's place. */
  function TableOf(current: map<string, i64>, labels: map<string, (nat, u64)>): (table: SymbolTable)
    ensures forall n ::
              Lookup(table, n) == if n in current then Absolute(current[n])
                                  else if n in labels then Defined(labels[n].0, labels[n].1) else Undefined
  {
    map n | n in current.Keys + labels.Keys :: if n in current then Absolute(current[n]) else Defined(labels[n].0, labels[n].1)
  }

  ghost function TablesUnder(stmts: seq<Stmt>, p: Resolver.Problem, aliases: seq<Option<string>>, values: seq<i64>,
                             initial: map<string, i64>,
                             labels: map<string, (nat, u64)>): (tables: seq<SymbolTable>)
    requires |SetList(stmts)| <= |values| == |p.assignments| == |aliases|
    ensures |tables| == |stmts|
    ensures forall k :: 0 <= k < |stmts| ==> |SetList(stmts[..k])| <= |values|
    ensures forall k :: 0 <= k < |stmts| ==>
              tables[k] == TableOf(SetScope.CurrentAt(p, aliases, values, initial, |SetList(stmts[..k])|), labels)
  {
    AllSetsFewer(stmts);
    seq(|stmts|, k requires 0 <= k < |stmts| => TableOf(SetScope.CurrentAt(p, aliases, values, initial, |SetList(stmts[..k])|), labels))
  }

  lemma AllSetsFewer(stmts: seq<Stmt>)
    ensures forall k :: 0 <= k < |stmts| ==> |SetList(stmts[..k])| <= |SetList(stmts)|
  {
    forall k | 0 <= k < |stmts| ensures |SetList(stmts[..k])| <= |SetList(stmts)| {
      SetsFewer(stmts, k);
    }
  }

  function LabelValues(labels: map<string, (nat, u64)>): SymbolTable {
    map n | n in labels :: Defined(labels[n].0, labels[n].1)
  }

  function AssignmentOf(s: Stmt): seq<Resolver.Assignment> {
    if s.SetAbsolute? then [Resolver.Assignment(s.name, s.value)] else []
  }

  /** The `.set` directives in order. */
  function SetList(stmts: seq<Stmt>): seq<Resolver.Assignment> {
    if stmts == [] then [] else SetList(stmts[..|stmts| - 1]) + AssignmentOf(stmts[|stmts| - 1])
  }

  lemma NoSets(stmts: seq<Stmt>)
    ensures SetList(stmts[..0]) == []
  {
  }

  lemma {:induction false} SetsFewer(stmts: seq<Stmt>, k: nat)
    requires k <= |stmts|
    ensures SetList(stmts[..k]) <= SetList(stmts)
  {
    if k == |stmts| {
      assert stmts[..k] == stmts;
    } else {
      assert stmts[..|stmts| - 1][..k] == stmts[..k];
      SetsFewer(stmts[..|stmts| - 1], k);
    }
  }

  /** A `.set` directive is the next assignment of the list. */
  lemma SetHere(stmts: seq<Stmt>, i: nat)
    requires i < |stmts|
    ensures SetList(stmts[..i + 1]) == SetList(stmts[..i]) + AssignmentOf(stmts[i])
    ensures SetList(stmts[..i + 1]) <= SetList(stmts)
    ensures stmts[i].SetAbsolute? ==>
              |SetList(stmts[..i])| < |SetList(stmts)| && SetList(stmts)[|SetList(stmts[..i])|].name == stmts[i].name
  {
    assert stmts[..i + 1][..i] == stmts[..i];
    SetsFewer(stmts, i + 1);
  }

  /** The cursor holds the resolved values of the list; aliases and labels are as the list and the layout say. */
  ghost predicate Resolves(cursor: SetScope.SetCursor, assignments: seq<Resolver.Assignment>, labels: map<string, (nat, u64)>)
    reads cursor`problem, cursor`aliases, cursor`values, cursor`initial, cursor`final
  {
    && cursor.Prepared()
    && cursor.problem == Resolver.Problem(SetScope.Substituted(assignments), LabelValues(labels))
    && cursor.aliases == SetScope.Aliases(assignments)
    && forall i :: 0 <= i < |cursor.values| ==> Resolver.Evaluates(cursor.problem, i, cursor.values[i])
  }

  /** Some `.set` directive has no value, or is an alias of a name that is no label. */
  ghost predicate SetsFail(assignments: seq<Resolver.Assignment>, labels: map<string, (nat, u64)>) {
    || SetScope.Aliased(labels, assignments, |assignments|).None?
    || exists i, e :: 0 <= i < |assignments|
              && Resolver.Blames(Resolver.Problem(SetScope.Substituted(assignments), LabelValues(labels)), i, e)
  }

  lemma BlamedFails(assignments: seq<Resolver.Assignment>, labels: map<string, (nat, u64)>, e: SetScope.CursorError)
    requires e.Unresolvable?
    requires exists i :: 0 <= i < |assignments|
               && Resolver.Blames(Resolver.Problem(SetScope.Substituted(assignments), LabelValues(labels)), i, e.error)
    ensures SetsFail(assignments, labels)
  {
    hide Resolver.Blames, SetScope.Aliased, SetScope.Substituted, LabelValues;
  }

  lemma UnaliasedFails(assignments: seq<Resolver.Assignment>, labels: map<string, (nat, u64)>)
    requires SetScope.Aliased(labels, assignments, |assignments|).None?
    ensures SetsFail(assignments, labels)
  {
  }

  /** Where every assignment has a value none is to blame. */
  lemma NoneBlamed(assignments: seq<Resolver.Assignment>, labels: map<string, (nat, u64)>, values: seq<i64>)
    requires |values| == |assignments|
    requires var p := Resolver.Problem(SetScope.Substituted(assignments), LabelValues(labels));
             forall i :: 0 <= i < |values| ==> Resolver.Evaluates(p, i, values[i])
    ensures SetsFail(assignments, labels) <==> SetScope.Aliased(labels, assignments, |assignments|).None?
  {
    hide Resolver.Blames, Resolver.Eval, SetScope.Aliased;
    var p := Resolver.Problem(SetScope.Substituted(assignments), LabelValues(labels));
    forall i, e | 0 <= i < |assignments| ensures !Resolver.Blames(p, i, e) {
      assert Resolver.Evaluates(p, i, values[i]);
      if Resolver.Blames(p, i, e) {
        var depth: nat :| Resolver.Eval(p, i, depth) == Some(values[i]);
        Resolver.BlamedNeverEvaluates(p, i, e, depth);
        assert false;
      }
    }
  }

  lemma {:induction false} AliasedStops(labels: map<string, (nat, u64)>, assignments: seq<Resolver.Assignment>, i: nat)
    requires i <= |assignments| && SetScope.Aliased(labels, assignments, i).None?
    ensures SetScope.Aliased(labels, assignments, |assignments|).None?
    decreases |assignments| - i
  {
    if i < |assignments| {
      AliasedStops(labels, assignments, i + 1);
    }
  }

  // ---- finished procedures ------------------------------------------------------------------------

  /** A procedure's tracked facts at its end, and the offset of the end. */
  datatype Finished = Finished(facts: ProcFacts, end: u64)

  /** The procedures finished by the statements, in order. */
  ghost function Procs(stmts: seq<Stmt>): seq<Finished> {
    if stmts == [] then []
    else
      var last := |stmts| - 1;
      var l := LayoutAll(stmts[..last]);
      Procs(stmts[..last])
      + if stmts[last].CfiEnd? && l.Some? && l.value.proc.Some? then [Finished(l.value.proc.value, Here(l.value.geometry).1)] else []
  }

  /** How many of the first k rows leave their procedure to a DWARF frame. */
  function DwarfRows(rows: seq<UnwindRow>, k: nat): nat
    requires k <= |rows|
  {
    if k == 0 then 0 else DwarfRows(rows, k - 1) + if rows[k - 1].encoding == CompactUnwind.MODE_DWARF then 1 else 0
  }

  /** The row covers the procedure. */
  predicate RowCovers(row: UnwindRow, p: Finished) {
    && row.section == p.facts.section && row.start == p.facts.start && row.start + row.length == p.end
    && row.length <= U32_MAX && row.encoding <= U32_MAX
  }

  /** The frame covers as much and its instructions are the procedure's events. */
  ghost predicate FrameMeans(frame: FrameRecord, row: UnwindRow, p: Finished) {
    frame.length == row.length && DecodeInstructions(frame.instructions, 0) == Some(p.facts.events)
  }

  /** Row k stands for the procedure's final rule, or leaves the decoding of its events to its DWARF frame. */
  ghost predicate RowMeans(rows: seq<UnwindRow>, frames: seq<FrameRecord>, k: nat, p: Finished)
    requires k < |rows|
  {
    && RowCovers(rows[k], p)
    && if rows[k].encoding == CompactUnwind.MODE_DWARF then
         DwarfRows(rows, k) < |frames| && FrameMeans(frames[DwarfRows(rows, k)], rows[k], p)
       else CompactUnwind.DecodeCompact(rows[k].encoding) == Some(p.facts.rules)
  }

  /** One row for each procedure, and one frame for each row that needs it. */
  ghost predicate Described(rows: seq<UnwindRow>, frames: seq<FrameRecord>, procs: seq<Finished>) {
    && |rows| == |procs| && |frames| == DwarfRows(rows, |rows|)
    && forall k :: 0 <= k < |rows| ==> RowMeans(rows, frames, k, procs[k])
  }

  /** The records after one more procedure. */
  ghost predicate RowAdded(rows: seq<UnwindRow>, frames: seq<FrameRecord>, rows': seq<UnwindRow>, frames': seq<FrameRecord>, p: Finished) {
    && |rows'| == |rows| + 1 && rows <= rows' && RowCovers(rows'[|rows|], p)
    && if rows'[|rows|].encoding == CompactUnwind.MODE_DWARF then
         |frames'| == |frames| + 1 && frames <= frames' && FrameMeans(frames'[|frames|], rows'[|rows|], p)
       else frames' == frames && CompactUnwind.DecodeCompact(rows'[|rows|].encoding) == Some(p.facts.rules)
  }

  /** The marker of a DWARF frame is no compact encoding. */
  lemma DwarfModeAlone()
    ensures CompactUnwind.DecodeCompact(CompactUnwind.MODE_DWARF) == None
  {
  }

  lemma {:induction false} DwarfRowsPrefix(a: seq<UnwindRow>, b: seq<UnwindRow>, k: nat)
    requires a <= b && k <= |a|
    ensures DwarfRows(a, k) == DwarfRows(b, k)
  {
    if k > 0 {
      DwarfRowsPrefix(a, b, k - 1);
    }
  }

  lemma NothingDescribed(stmts: seq<Stmt>, rows: seq<UnwindRow>, frames: seq<FrameRecord>)
    requires rows == [] && frames == []
    ensures Described(rows, frames, Procs(stmts[..0])) && SetList(stmts[..0]) == []
  {
  }

  lemma DescribedNext(rows: seq<UnwindRow>, frames: seq<FrameRecord>, procs: seq<Finished>, rows': seq<UnwindRow>,
                      frames': seq<FrameRecord>, p: Finished)
    requires Described(rows, frames, procs) && RowAdded(rows, frames, rows', frames', p)
    ensures Described(rows', frames', procs + [p])
  {
    hide RowCovers, FrameMeans, CompactUnwind.DecodeCompact, DwarfRows;
    var n := |rows|;
    DwarfRowsPrefix(rows, rows', n);
    DwarfRowsNext(rows', n);
    forall k | 0 <= k < n + 1 ensures RowMeans(rows', frames', k, (procs + [p])[k]) {
      if k < n {
        assert RowMeans(rows, frames, k, procs[k]);
        DwarfRowsPrefix(rows, rows', k);
      }
    }
  }

  lemma DwarfRowsNext(rows: seq<UnwindRow>, k: nat)
    requires k < |rows|
    ensures DwarfRows(rows, k + 1) == DwarfRows(rows, k) + if rows[k].encoding == CompactUnwind.MODE_DWARF then 1 else 0
  {
  }

  lemma ListsNext(stmts: seq<Stmt>, i: nat)
    requires i < |stmts|
    ensures SetList(stmts[..i + 1]) == SetList(stmts[..i]) + AssignmentOf(stmts[i])
    ensures var l := LayoutAll(stmts[..i]);
            Procs(stmts[..i + 1]) == Procs(stmts[..i])
              + if stmts[i].CfiEnd? && l.Some? && l.value.proc.Some? then [Finished(l.value.proc.value, Here(l.value.geometry).1)] else []
  {
    hide LayoutAll;
    assert stmts[..i + 1][..i] == stmts[..i] && stmts[..i + 1][i] == stmts[i];
  }

  /** Behind the first n sections stand the compact rows and the frames, each if there are any. */
  ghost predicate UnwindSections(sections: seq<Section>, n: nat, rows: seq<UnwindRow>, frames: seq<FrameRecord>) {
    && |sections| == n + (if rows != [] then 1 else 0) + (if frames != [] then 1 else 0)
    && (rows != [] ==> IsGenerated(sections[n], "__LD", "__compact_unwind", CompactBytes(rows)))
    && (frames != [] ==> IsGenerated(sections[|sections| - 1], "__TEXT", "__eh_frame", FrameBytes(frames)))
  }

  predicate IsGenerated(s: Section, segment: string, name: string, data: seq<byte>) {
    s.segment == segment && s.name == name && s.data == data
  }

  /** The statement's bytes stand at its place, unless the section is zero-fill. */
  ghost predicate PlacedAt(s: Stmt, place: (nat, u64), sections: seq<Section>, symbols: SymbolTable) {
    && WellFormedStmt(s) && place.0 < |sections|
    && var bytes := StmtBytes(sections[place.0].kind, place.1, s, symbols);
       && bytes.Some?
       && (IsZerofill(sections[place.0].kind) || SliceAt(sections[place.0].data, place.1, bytes.value))
  }

  /** Every statement's bytes stand at the place where it was reached. */
  ghost predicate BytesPlaced(stmts: seq<Stmt>, reached: seq<(nat, u64)>, sections: seq<Section>, tables: seq<SymbolTable>) {
    |reached| == |stmts| == |tables| && forall k :: 0 <= k < |stmts| ==> PlacedAt(stmts[k], reached[k], sections, tables[k])
  }

  /** The first i statements are emitted. */
  ghost predicate Processed(start: Geometry, stmts: seq<Stmt>, i: nat, now: Geometry, reached: seq<(nat, u64)>, sections: seq<Section>,
                            tables: seq<SymbolTable>)
  {
    && i <= |stmts| == |tables| && InSection(start) && Run(start, stmts[..i]) == Some(now) && |reached| == i
    && (forall k :: 0 <= k < i ==> ReachedAt(start, stmts, k, reached[k]))
    && (forall k :: 0 <= k < i ==> PlacedAt(stmts[k], reached[k], sections, tables[k]))
  }

  lemma NothingProcessed(start: Geometry, stmts: seq<Stmt>, sections: seq<Section>, tables: seq<SymbolTable>)
    requires InSection(start) && |tables| == |stmts|
    ensures Processed(start, stmts, 0, start, [], sections, tables)
  {
    assert stmts[..0] == [];
  }

  lemma ProcessedAll(start: Geometry, stmts: seq<Stmt>, now: Geometry, reached: seq<(nat, u64)>, sections: seq<Section>,
                     tables: seq<SymbolTable>)
    requires Processed(start, stmts, |stmts|, now, reached, sections, tables)
    ensures Run(start, stmts) == Some(now) && BytesPlaced(stmts, reached, sections, tables)
    ensures forall k :: 0 <= k < |stmts| ==> ReachedAt(start, stmts, k, reached[k])
  {
    hide PlacedAt, Run, ReachedAt;
    assert stmts[..|stmts|] == stmts;
  }

  /** The first i statements are emitted, one behind another, and have left their fixups. */
  ghost predicate Underway(start: Geometry, stmts: seq<Stmt>, i: nat, now: Geometry, reached: seq<(nat, u64)>, sections: seq<Section>,
                           tables: seq<SymbolTable>, fixups: seq<Fixup>)
  {
    && Processed(start, stmts, i, now, reached, sections, tables)
    && Follow(stmts, reached, sections, tables)
    && fixups == FixupsUpTo(stmts, reached, tables, i)
  }

  lemma NotUnderway(start: Geometry, stmts: seq<Stmt>, sections: seq<Section>, tables: seq<SymbolTable>)
    requires InSection(start) && |tables| == |stmts|
    ensures Underway(start, stmts, 0, start, [], sections, tables, [])
  {
    NothingProcessed(start, stmts, sections, tables);
    NothingFollows(stmts, sections, tables);
  }

  lemma UnderwayNext(start: Geometry, stmts: seq<Stmt>, i: nat, g: Geometry, h: Geometry, reached: seq<(nat, u64)>, before: seq<Section>,
                     after: seq<Section>, tables: seq<SymbolTable>, fixups: seq<Fixup>)
    requires Underway(start, stmts, i, g, reached, before, tables, fixups) && i < |stmts| && WellFormedStmt(stmts[i]) && InSection(g)
    requires Run(start, stmts[..i + 1]) == Some(h) && AllMatch(before)
    requires g.section < |before| && g.sections == SlotsOf(before) && Writes(before[g.section], stmts[i], tables[i]).Some?
    requires Emitted(before, after, g.section, Writes(before[g.section], stmts[i], tables[i]).value)
    ensures Underway(start, stmts, i + 1, h, reached + [Here(g)], after, tables,
                     fixups + StmtFixups(stmts[i], tables[i], g.section, g.sections[g.section].size))
  {
    hide Run, ReachedAt, PlacedAt, StmtBytes, StmtFixups, DataMatches, Follow, FixupsUpTo;
    FixupsNext(stmts, reached, tables, Here(g));
    FollowNext(start, stmts, i, g, reached, before, after, tables);
    ProcessedNext(start, stmts, i, g, h, reached, before, after, tables);
  }

  lemma UnderwayAll(start: Geometry, stmts: seq<Stmt>, now: Geometry, reached: seq<(nat, u64)>, sections: seq<Section>,
                    tables: seq<SymbolTable>,
                    fixups: seq<Fixup>)
    requires Underway(start, stmts, |stmts|, now, reached, sections, tables, fixups)
    ensures Run(start, stmts) == Some(now) && BytesPlaced(stmts, reached, sections, tables) && Follow(stmts, reached, sections, tables)
    ensures |reached| == |stmts| && forall k :: 0 <= k < |stmts| ==> ReachedAt(start, stmts, k, reached[k])
    ensures fixups == FixupsUpTo(stmts, reached, tables, |stmts|)
  {
    hide PlacedAt, Run, ReachedAt, Follow, FixupsUpTo;
    ProcessedAll(start, stmts, now, reached, sections, tables);
  }

  /** Where layout succeeds, the next statement has a step. */
  lemma StepHere(start: Geometry, stmts: seq<Stmt>, i: nat, g: Geometry, reached: seq<(nat, u64)>, sections: seq<Section>,
                 tables: seq<SymbolTable>,
                 fixups: seq<Fixup>)
    requires Underway(start, stmts, i, g, reached, sections, tables, fixups) && i < |stmts| && Run(start, stmts).Some?
    ensures InSection(g) && Step(g, stmts[i]).Some? && Run(start, stmts[..i + 1]) == Step(g, stmts[i]) && |reached| == i
  {
    hide PlacedAt, ReachedAt, Step;
    assert stmts[..i + 1][..i] == stmts[..i] && stmts[..i + 1][i] == stmts[i];
    RunPrefix(start, stmts, i + 1);
  }

  lemma RefusedHere(start: Geometry, stmts: seq<Stmt>, i: nat, g: Geometry, reached: seq<(nat, u64)>, sections: seq<Section>,
                    tables: seq<SymbolTable>,
                    fixups: seq<Fixup>)
    requires Underway(start, stmts, i, g, reached, sections, tables, fixups) && i < |stmts| && WellFormedStmt(stmts[i])
    requires g.section < |sections| && g.sections == SlotsOf(sections) && Writes(sections[g.section], stmts[i], tables[i]).None?
    ensures RefusedFrom(start, stmts, i, tables)
  {
    hide PlacedAt, ReachedAt, StmtBytes, Run;
  }

  lemma ProcessedNext(start: Geometry, stmts: seq<Stmt>, i: nat, g: Geometry, h: Geometry, reached: seq<(nat, u64)>, before: seq<Section>,
                      after: seq<Section>, tables: seq<SymbolTable>)
    requires Processed(start, stmts, i, g, reached, before, tables) && i < |stmts| && WellFormedStmt(stmts[i]) && InSection(g)
    requires Run(start, stmts[..i + 1]) == Some(h) && AllMatch(before)
    requires g.section < |before| && g.sections == SlotsOf(before) && Writes(before[g.section], stmts[i], tables[i]).Some?
    requires Emitted(before, after, g.section, Writes(before[g.section], stmts[i], tables[i]).value)
    ensures Processed(start, stmts, i + 1, h, reached + [Here(g)], after, tables)
  {
    hide PlacedAt, Emitted, StmtBytes, Run, DataMatches;
    var bytes := Writes(before[g.section], stmts[i], tables[i]).value;
    var more := reached + [Here(g)];
    forall k | 0 <= k < i + 1 ensures PlacedAt(stmts[k], more[k], after, tables[k]) {
      if k < i {
        PlacedStill(stmts[k], reached[k], before, after, g.section, bytes, tables[k]);
      } else {
        PlacedNow(stmts[i], before, after, g.section, tables[i]);
      }
    }
    assert ReachedAt(start, stmts, i, Here(g));
  }

  /** Where statement k's bytes end. */
  function EndAt(stmts: seq<Stmt>, reached: seq<(nat, u64)>, sections: seq<Section>, tables: seq<SymbolTable>, k: nat): nat
    requires k < |stmts| && k < |reached| && k < |tables| && reached[k].0 < |sections| && WellFormedStmt(stmts[k])
  {
    var bytes := StmtBytes(sections[reached[k].0].kind, reached[k].1, stmts[k], tables[k]);
    reached[k].1 + if bytes.Some? then |bytes.value| else 0
  }

  ghost predicate Behind(stmts: seq<Stmt>, reached: seq<(nat, u64)>, sections: seq<Section>, tables: seq<SymbolTable>, k: nat, m: nat) {
    && k < |stmts| && k < |reached| && k < |tables| && m < |reached| && reached[k].0 < |sections| && WellFormedStmt(stmts[k])
    && (reached[k].0 == reached[m].0 && !IsZerofill(sections[reached[k].0].kind) ==>
          EndAt(stmts, reached, sections, tables, k) <= reached[m].1)
  }

  /** Statements of one section stand behind one another. */
  ghost predicate Follow(stmts: seq<Stmt>, reached: seq<(nat, u64)>, sections: seq<Section>, tables: seq<SymbolTable>) {
    forall k, m :: 0 <= k < m < |reached| ==> Behind(stmts, reached, sections, tables, k, m)
  }

  lemma NothingFollows(stmts: seq<Stmt>, sections: seq<Section>, tables: seq<SymbolTable>)
    ensures Follow(stmts, [], sections, tables)
  {
  }

  lemma FollowNext(start: Geometry, stmts: seq<Stmt>, i: nat, g: Geometry, reached: seq<(nat, u64)>, before: seq<Section>,
                   after: seq<Section>,
                   tables: seq<SymbolTable>)
    requires Processed(start, stmts, i, g, reached, before, tables) && InSection(g) && AllMatch(before)
    requires g.section < |before| && g.sections == SlotsOf(before) && Follow(stmts, reached, before, tables)
    requires |before| <= |after| && forall x :: 0 <= x < |before| ==> after[x].kind == before[x].kind
    ensures Follow(stmts, reached + [Here(g)], after, tables)
  {
    hide StmtBytes, Run, ReachedAt, WellFormedStmt;
    var more := reached + [Here(g)];
    forall k, m | 0 <= k < m < |more| ensures Behind(stmts, more, after, tables, k, m) {
      assert PlacedAt(stmts[k], reached[k], before, tables[k]);
      if m < |reached| {
        assert Behind(stmts, reached, before, tables, k, m);
      } else {
        assert DataMatches(before[g.section]);
      }
    }
  }

  lemma FollowKept(stmts: seq<Stmt>, reached: seq<(nat, u64)>, a: seq<Section>, b: seq<Section>, tables: seq<SymbolTable>)
    requires Follow(stmts, reached, a, tables) && a <= b
    ensures Follow(stmts, reached, b, tables)
  {
    hide StmtBytes, WellFormedStmt;
    forall k, m | 0 <= k < m < |reached| ensures Behind(stmts, reached, b, tables, k, m) {
      assert Behind(stmts, reached, a, tables, k, m);
    }
  }

  /** Emission refuses the statement at this place: an element without a form that fits, or too long a fill. */
  ghost predicate Refuses(g: Geometry, s: Stmt, symbols: SymbolTable) {
    InSection(g) && WellFormedStmt(s) && StmtBytes(g.sections[g.section].kind, g.sections[g.section].size, s, symbols).None?
  }

  ghost predicate RefusedFrom(start: Geometry, stmts: seq<Stmt>, k: nat, tables: seq<SymbolTable>) {
    k < |stmts| == |tables| && InSection(start) && Run(start, stmts[..k]).Some?
              && Refuses(Run(start, stmts[..k]).value, stmts[k], tables[k])
  }

  /** Emission refuses statement k where layout put it. */
  ghost predicate RefusedAt(stmts: seq<Stmt>, k: nat, tables: seq<SymbolTable>) {
    k < |stmts| == |tables| && LayoutAll(stmts[..k]).Some? && Refuses(LayoutAll(stmts[..k]).value.geometry, stmts[k], tables[k])
  }

  ghost predicate NothingRefused(stmts: seq<Stmt>, tables: seq<SymbolTable>) {
    forall k :: 0 <= k < |stmts| ==> !RefusedAt(stmts, k, tables)
  }

  lemma RefusalSeen(stmts: seq<Stmt>, tables: seq<SymbolTable>)
    requires LayoutAll(stmts).Some?
    requires exists k :: 0 <= k < |stmts| && RefusedFrom(Emptied(LayoutAll(stmts).value.geometry), stmts, k, tables)
    ensures !NothingRefused(stmts, tables)
  {
    hide Emptied, LayoutAll, Run, StmtBytes;
    var k :| 0 <= k < |stmts| && RefusedFrom(Emptied(LayoutAll(stmts).value.geometry), stmts, k, tables);
    LayoutAllGeometry(stmts);
    LayoutPrefix(stmts, k);
    LayoutAllGeometry(stmts[..k]);
    PassesFollow(stmts, k);
    assert RefusedAt(stmts, k, tables);
  }

  /** No statement that was emitted is one that emission refuses. */
  lemma NoneRefused(stmts: seq<Stmt>, reached: seq<(nat, u64)>, sections: seq<Section>, tables: seq<SymbolTable>)
    requires LayoutAll(stmts).Some? && AllSlots(LayoutAll(stmts).value) == Some(SlotsOf(sections))
    requires SamePlaces(stmts, reached) && BytesPlaced(stmts, reached, sections, tables)
    ensures NothingRefused(stmts, tables)
  {
    hide LayoutAll, Run, StmtBytes, WellFormedStmt, UnwindSlots;
    forall k | 0 <= k < |stmts| ensures !RefusedAt(stmts, k, tables) {
      LayoutAllGeometry(stmts);
      LayoutPrefix(stmts, k);
      LayoutAllGeometry(stmts[..k]);
      RunPrefix(InitialGeometry(), stmts, k);
      var l := LayoutAll(stmts[..k]).value;
      assert SlotsOf(sections)[l.geometry.section] == LayoutAll(stmts).value.geometry.sections[l.geometry.section];
      assert PlacedAt(stmts[k], reached[k], sections, tables[k]);
    }
  }

  lemma PlacedStill(s: Stmt, place: (nat, u64), a: seq<Section>, b: seq<Section>, at: nat, bytes: seq<byte>, symbols: SymbolTable)
    requires PlacedAt(s, place, a, symbols) && Emitted(a, b, at, bytes)
    ensures PlacedAt(s, place, b, symbols)
  {
    hide StmtBytes;
    var i := place.0;
    var more := if i == at && !IsZerofill(a[i].kind) then bytes else [];
    assert b[i].kind == a[i].kind && b[i].data == a[i].data + more;
    var mine := StmtBytes(a[i].kind, place.1, s, symbols).value;
    if !IsZerofill(a[i].kind) {
      SliceKept(a[i].data, more, place.1, mine);
    }
  }

  lemma PlacedNow(s: Stmt, a: seq<Section>, b: seq<Section>, at: nat, symbols: SymbolTable)
    requires WellFormedStmt(s) && at < |a| && DataMatches(a[at]) && Writes(a[at], s, symbols).Some?
    requires Emitted(a, b, at, Writes(a[at], s, symbols).value)
    ensures PlacedAt(s, (at, a[at].size), b, symbols)
  {
    hide StmtBytes;
    var bytes := Writes(a[at], s, symbols).value;
    assert b[at].kind == a[at].kind;
    if !IsZerofill(a[at].kind) {
      assert b[at].data == a[at].data + bytes;
      assert b[at].data == a[at].data + bytes + [];
      SlicePiece(b[at].data, a[at].data, bytes, []);
    }
  }

  lemma BytesKept(stmts: seq<Stmt>, reached: seq<(nat, u64)>, a: seq<Section>, b: seq<Section>, tables: seq<SymbolTable>)
    requires BytesPlaced(stmts, reached, a, tables) && a <= b
    ensures BytesPlaced(stmts, reached, b, tables)
  {
    hide StmtBytes;
    forall k | 0 <= k < |stmts| ensures PlacedAt(stmts[k], reached[k], b, tables[k]) {
      assert PlacedAt(stmts[k], reached[k], a, tables[k]);
      assert b[reached[k].0] == a[reached[k].0];
    }
  }

  lemma GeometryAligned(stmts: seq<Stmt>)
    requires LayoutAll(stmts).Some?
    ensures GeometryOk(LayoutAll(stmts).value.geometry)
  {
    LayoutAllGeometry(stmts);
    RunOk(InitialGeometry(), stmts);
  }

  lemma SlotsAligned(l: LayoutState, sections: seq<Section>)
    requires GeometryOk(l.geometry) && AllSlots(l) == Some(SlotsOf(sections))
    ensures forall i :: 0 <= i < |sections| ==> sections[i].align < 64
  {
    forall i | 0 <= i < |sections| ensures sections[i].align < 64 {
      assert SlotsOf(sections)[i].align == sections[i].align;
    }
  }

  lemma AlignedBySlots(sections: seq<Section>)
    requires forall i :: 0 <= i < |sections| ==> SlotsOf(sections)[i].align <= MAX_ALIGN_POWER
    ensures forall i :: 0 <= i < |sections| ==> sections[i].align < 64
  {
    forall i | 0 <= i < |sections| ensures sections[i].align < 64 {
      assert SlotsOf(sections)[i].align == sections[i].align;
    }
  }

  lemma SourceSlots(l: LayoutState, slots: seq<Slot>, n: nat)
    requires AllSlots(l) == Some(slots) && n == |l.geometry.sections|
    ensures |slots| >= n && slots[..n] == l.geometry.sections
    ensures Emptied(Geometry(0, slots[..n])) == Emptied(l.geometry)
    ensures UnwindSlots(l.rows, l.frames).Some? && slots == l.geometry.sections + UnwindSlots(l.rows, l.frames).value
  {
  }

  lemma UnwindFits(l: LayoutState)
    requires UnwindSlots(l.rows, l.frames).Some?
    ensures l.rows * COMPACT_ENTRY <= U64_MAX && (l.frames == [] || FramesFit(l.frames))
  {
  }

  /** The second pass reaches every statement where the layout pass did. */
  ghost predicate SamePlaces(stmts: seq<Stmt>, reached: seq<(nat, u64)>) {
    && |reached| == |stmts|
    && forall k :: 0 <= k < |stmts| ==> LayoutAll(stmts[..k]).Some? && reached[k] == Here(LayoutAll(stmts[..k]).value.geometry)
  }

  lemma ReachedSame(stmts: seq<Stmt>, reached: seq<(nat, u64)>)
    requires LayoutAll(stmts).Some? && |reached| == |stmts|
    requires forall k :: 0 <= k < |stmts| ==> ReachedAt(Emptied(LayoutAll(stmts).value.geometry), stmts, k, reached[k])
    ensures SamePlaces(stmts, reached)
  {
    hide Emptied, LayoutAll, Run;
    LayoutAllGeometry(stmts);
    forall k | 0 <= k < |stmts| ensures LayoutAll(stmts[..k]).Some? && reached[k] == Here(LayoutAll(stmts[..k]).value.geometry) {
      LayoutPrefix(stmts, k);
      LayoutAllGeometry(stmts[..k]);
      PassesFollow(stmts, k);
      assert ReachedAt(Emptied(LayoutAll(stmts).value.geometry), stmts, k, reached[k]);
    }
  }

  /** Every label denotes the place at which its statement is reached. */
  ghost predicate LabelsAt(stmts: seq<Stmt>, reached: seq<(nat, u64)>, labels: map<string, (nat, u64)>) {
    && |reached| == |stmts|
    && forall k :: 0 <= k < |stmts| && stmts[k].Label? ==> stmts[k].name in labels && labels[stmts[k].name] == reached[k]
  }

  lemma LabelsGrow(l: LayoutState, s: Stmt, name: string)
    requires InSection(l.geometry) && LayoutStep(l, s).Some? && name in l.labels
    ensures name in LayoutStep(l, s).value.labels && LayoutStep(l, s).value.labels[name] == l.labels[name]
  {
    hide Step, ZerofillAt, EndProc, RuleStep;
    match s
    case CfiEnd => EndKeepsLabels(l);
    case CfiRule(dir) => RuleKeepsLabels(l, dir);
    case _ =>
  }

  lemma EndKeepsLabels(l: LayoutState)
    requires InSection(l.geometry) && l.proc.Some? && EndProc(l, l.proc.value).Some?
    ensures EndProc(l, l.proc.value).value.labels == l.labels
  {
    hide EncodeEvents;
  }

  lemma RuleKeepsLabels(l: LayoutState, dir: CfiDirective)
    requires InSection(l.geometry) && l.proc.Some? && RuleStep(l, l.proc.value, dir).Some?
    ensures RuleStep(l, l.proc.value, dir).value.labels == l.labels
  {
  }

  lemma {:induction false} LabelsReached(stmts: seq<Stmt>, reached: seq<(nat, u64)>)
    requires LayoutAll(stmts).Some? && SamePlaces(stmts, reached)
    ensures LabelsAt(stmts, reached, LayoutAll(stmts).value.labels)
  {
    hide LayoutStep;
    if stmts != [] {
      var last := |stmts| - 1;
      var before := LayoutAll(stmts[..last]).value;
      forall k | 0 <= k < last ensures stmts[..last][..k] == stmts[..k] {}
      LabelsReached(stmts[..last], reached[..last]);
      forall k | 0 <= k < |stmts| && stmts[k].Label?
        ensures stmts[k].name in LayoutAll(stmts).value.labels && LayoutAll(stmts).value.labels[stmts[k].name] == reached[k]
      {
        if k < last {
          assert stmts[..last][k] == stmts[k] && reached[..last][k] == reached[k];
          LabelsGrow(before, stmts[last], stmts[k].name);
        } else {
          LabelPlaced(before, stmts[last]);
        }
      }
    }
  }

  lemma LabelPlaced(l: LayoutState, s: Stmt)
    requires InSection(l.geometry) && s.Label? && LayoutStep(l, s).Some?
    ensures s.name in LayoutStep(l, s).value.labels && LayoutStep(l, s).value.labels[s.name] == Here(l.geometry)
  {
  }

  lemma ExtentsAligned(slots: seq<Slot>)
    requires forall i :: 0 <= i < |slots| ==> slots[i].align < 64
    ensures forall i :: 0 <= i < |Extents(slots)| ==> Extents(slots)[i].align < 64
  {
  }

  lemma MaterializedSlots(before: seq<Section>, after: seq<Section>, more: seq<Slot>)
    requires |more| <= 1 && |after| == |before| + |more| && after[..|before|] == before
    requires more != [] ==> SlotOf(after[|before|]) == more[0]
    ensures SlotsOf(after) == SlotsOf(before) + more
    ensures more != [] && more[0].align < 64 && (forall i :: 0 <= i < |before| ==> before[i].align < 64) ==>
              forall i :: 0 <= i < |after| ==> after[i].align < 64
  {
    forall i | 0 <= i < |after| ensures SlotsOf(after)[i] == (SlotsOf(before) + more)[i] {
      if i < |before| { assert after[i] == before[i]; }
    }
    if more != [] && more[0].align < 64 {
      forall i | 0 <= i < |before| ensures after[i] == before[i] {}
    }
  }

  datatype AsmError = LayoutFailed | LayoutOverflow | SetFailed | EmissionFailed | FrameTooLong | LayoutChanged

  /** A generated section is full: it holds exactly as many bytes as its slot promises. */
  lemma MaterializedMatch(before: seq<Section>, after: seq<Section>)
    requires AllMatch(before)
    requires |before| <= |after| <= |before| + 1 && after[..|before|] == before
    requires |after| > |before| ==> DataMatches(after[|before|])
    ensures AllMatch(after)
  {
    forall i | 0 <= i < |after| ensures DataMatches(after[i]) {
      if i < |before| { assert after[i] == before[i]; }
    }
  }

  // ---- the bytes of the generated sections ------------------------------------------------------------

  /** Start, length, encoding, personality and language-specific data area of every row. */
  function CompactBytes(rows: seq<UnwindRow>): seq<byte> {
    if rows == [] then []
    else
      var row := rows[|rows| - 1];
      CompactBytes(rows[..|rows| - 1]) + LE(row.start, 8) + LE(row.length, 4) + LE(row.encoding, 4) + LE(0, 8) + LE(0, 8)
  }

  lemma CompactNext(rows: seq<UnwindRow>, i: nat)
    requires i <= |rows|
    ensures CompactBytes(rows[..0]) == []
    ensures i < |rows| ==> CompactBytes(rows[..i + 1]) == CompactBytes(rows[..i]) + LE(rows[i].start, 8) + LE(rows[i].length, 4)
                                                          + LE(rows[i].encoding, 4) + LE(0, 8) + LE(0, 8)
  {
    hide LE;
    if i < |rows| {
      assert rows[..i + 1][..i] == rows[..i];
    }
  }

  lemma CompactSlotOf(s: Section, n: nat)
    requires s.segment == "__LD" && s.name == "__compact_unwind" && s.kind == CompactUnwindKind && s.align == 3
    requires n * COMPACT_ENTRY <= U64_MAX && s.size == n * COMPACT_ENTRY
    ensures SlotOf(s) == CompactSlot(n)
  {
  }

  lemma {:induction false} CompactLength(rows: seq<UnwindRow>)
    ensures |CompactBytes(rows)| == |rows| * COMPACT_ENTRY
  {
    if rows != [] {
      CompactLength(rows[..|rows| - 1]);
    }
  }

  const CIE: seq<byte> :=
    [0x10, 0x00, 0x00, 0x00, 0x00, 0x00, 0x00, 0x00, 0x01, 0x7A, 0x52, 0x00, 0x01, 0x78, 0x1E, 0x01, 0x10, 0x0C, 0x1F, 0x00]

  /** A frame description entry behind its length field: the way back to the CIE, the range, the instructions. */
  function FdeBody(start: nat, frame: FrameRecord): seq<byte> {
    LE(start + 4, 4) + LE(0 - (start + 8) % 0x1_0000_0000, 8) + LE(frame.length, 8) + [0] + frame.instructions
  }

  function FrameBytes(frames: seq<FrameRecord>): seq<byte> {
    if frames == [] then CIE
    else
      var before := FrameBytes(frames[..|frames| - 1]);
      var fde := FdeBody(|before|, frames[|frames| - 1]);
      before + LE(|fde|, 4) + fde
  }

  lemma FrameBytesNext(frames: seq<FrameRecord>, i: nat)
    requires i < |frames|
    ensures var before := FrameBytes(frames[..i]);
            FrameBytes(frames[..i + 1]) == before + LE(|FdeBody(|before|, frames[i])|, 4) + FdeBody(|before|, frames[i])
  {
    hide FdeBody, LE;
    assert frames[..i + 1][..i] == frames[..i] && frames[..i + 1][i] == frames[i];
  }

  lemma NoFrames()
    ensures FrameBytes([]) == CIE
  {
  }

  lemma FdeLength(start: nat, frame: FrameRecord)
    ensures |FdeBody(start, frame)| == 21 + |frame.instructions|
  {
    hide LE;
  }

  lemma {:induction false} FrameLength(frames: seq<FrameRecord>)
    ensures |FrameBytes(frames)| == FramesSize(Lengths(frames))
  {
    if frames != [] {
      FrameLength(frames[..|frames| - 1]);
      assert Lengths(frames)[..|frames| - 1] == Lengths(frames[..|frames| - 1]);
    } else {
      assert Lengths(frames) == [];
    }
  }

  /**
    An entry at `start`: its length, the way back to the CIE, the way from the range's start back to the
    section, the length of the range, no augmentation data, the instructions.
   */
  ghost predicate FrameAt(data: seq<byte>, start: nat, frame: FrameRecord) {
    && start + 25 + |frame.instructions| <= |data|
    && FromLE(data[start..start + 4]) == 21 + |frame.instructions|
    && FromLE(data[start + 4..start + 8]) == start + 4
    && FromLE(data[start + 8..start + 16]) == U64_MAX + 1 - (start + 8)
    && FromLE(data[start + 16..start + 24]) == frame.length % Pow256(8)
    && data[start + 24] == 0
    && data[start + 25..start + 25 + |frame.instructions|] == frame.instructions
  }

  /** The k-th entry starts where the earlier ones end; its CIE pointer leads back to the table's start. */
  lemma {:induction false} FrameLocated(frames: seq<FrameRecord>, k: nat)
    requires k < |frames| && FramesFit(Lengths(frames)) && FramesSize(Lengths(frames)) <= U32_MAX
    ensures FrameAt(FrameBytes(frames), FramesSize(Lengths(frames[..k])), frames[k])
  {
    hide FrameAt, FdeBody, LE, Lengths;
    var last := |frames| - 1;
    var before := FrameBytes(frames[..last]);
    var fde := FdeBody(|before|, frames[last]);
    FrameLength(frames[..last]);
    assert Lengths(frames)[..last] == Lengths(frames[..last]);
    FramesGrow(Lengths(frames[..last]), Lengths(frames));
    assert Lengths(frames)[last] == |frames[last].instructions|;
    if k < last {
      FrameLocated(frames[..last], k);
      assert frames[..last][..k] == frames[..k];
      assert before + LE(|fde|, 4) + fde == before + (LE(|fde|, 4) + fde);
      FrameKept(before, LE(|fde|, 4) + fde, FramesSize(Lengths(frames[..k])), frames[k]);
    } else {
      LastFrame(before, frames[last]);
    }
  }

  lemma FrameKept(before: seq<byte>, more: seq<byte>, start: nat, frame: FrameRecord)
    requires FrameAt(before, start, frame)
    ensures FrameAt(before + more, start, frame)
  {
    var data, n := before + more, |frame.instructions|;
    assert data[start..start + 4] == before[start..start + 4];
    assert data[start + 4..start + 8] == before[start + 4..start + 8];
    assert data[start + 8..start + 16] == before[start + 8..start + 16];
    assert data[start + 16..start + 24] == before[start + 16..start + 24];
    assert data[start + 25..start + 25 + n] == before[start + 25..start + 25 + n];
  }

  lemma Middle(whole: seq<byte>, x: seq<byte>, part: seq<byte>, y: seq<byte>)
    requires whole == x + part + y
    ensures whole[|x|..|x| + |part|] == part
  {
  }

  lemma SixParts(whole: seq<byte>, x: seq<byte>, a: seq<byte>, b: seq<byte>, c: seq<byte>, d: seq<byte>, e: seq<byte>)
    requires whole == x + a + (b + c + d + e)
    ensures whole[|x|..|x| + |a|] == a
    ensures whole[|x| + |a|..|x| + |a| + |b|] == b
    ensures whole[|x| + |a| + |b|..|x| + |a| + |b| + |c|] == c
    ensures whole[|x| + |a| + |b| + |c|..|x| + |a| + |b| + |c| + |d|] == d
    ensures whole[|x| + |a| + |b| + |c| + |d|..] == e
  {
    Middle(whole, x, a, b + c + d + e);
    Joined(x + a, b, c + d + e);
    assert b + (c + d + e) == b + c + d + e;
    Middle(whole, x + a, b, c + d + e);
    Joined(x + a + b, c, d + e);
    assert c + (d + e) == c + d + e;
    Middle(whole, x + a + b, c, d + e);
    Joined(x + a + b + c, d, e);
    Middle(whole, x + a + b + c, d, e);
  }

  lemma Joined(x: seq<byte>, y: seq<byte>, z: seq<byte>)
    ensures x + (y + z) == x + y + z
  {
  }

  /** The bytes of the entry, field by field. */
  lemma FdeFields(before: seq<byte>, frame: FrameRecord)
    ensures var start, n := |before|, |frame.instructions|;
            var fde := FdeBody(start, frame);
            var data := before + LE(|fde|, 4) + fde;
            && |fde| == 21 + n && |data| == start + 25 + n
            && data[start..start + 4] == LE(21 + n, 4)
            && data[start + 4..start + 8] == LE(start + 4, 4)
            && data[start + 8..start + 16] == LE(0 - (start + 8) % 0x1_0000_0000, 8)
            && data[start + 16..start + 24] == LE(frame.length, 8)
            && data[start + 24] == 0
            && data[start + 25..start + 25 + n] == frame.instructions
  {
    hide LE;
    var start, n := |before|, |frame.instructions|;
    var b, c, d := LE(start + 4, 4), LE(0 - (start + 8) % 0x1_0000_0000, 8), LE(frame.length, 8);
    var fde := FdeBody(start, frame);
    var tail := [0] + frame.instructions;
    assert fde == b + c + d + tail;
    var data := before + LE(|fde|, 4) + fde;
    SixParts(data, before, LE(|fde|, 4), b, c, d, tail);
    assert data[start + 24..] == tail;
    assert data[start + 24] == tail[0];
    assert data[start + 25..start + 25 + n] == tail[1..];
  }

  lemma LastFrame(before: seq<byte>, frame: FrameRecord)
    requires |before| + 8 <= U32_MAX && 21 + |frame.instructions| <= U32_MAX
    ensures FrameAt(before + LE(|FdeBody(|before|, frame)|, 4) + FdeBody(|before|, frame), |before|, frame)
  {
    hide FdeBody, LE, FromLE;
    FdeFields(before, frame);
    Pow256Values();
    FieldRoundTrip(21 + |frame.instructions|, 4);
    FieldRoundTrip(|before| + 4, 4);
    FieldRoundTrip(frame.length, 8);
    var back: nat := |before| + 8;
    DivModUnique(back, 0x1_0000_0000, 0, back);
    FieldRoundTrip(0 - back, 8);
    DivModUnique(0 - back, Pow256(8), -1, Pow256(8) - back);
  }

  /** Row k of the compact section: start, length and encoding, no personality and no language-specific data. */
  ghost predicate RowAt(data: seq<byte>, k: nat, row: UnwindRow) {
    && (k + 1) * COMPACT_ENTRY <= |data|
    && var at := k * COMPACT_ENTRY;
       && WordAt(data, at, 8) == row.start && WordAt(data, at + 8, 4) == row.length && WordAt(data, at + 12, 4) == row.encoding
       && WordAt(data, at + 16, 8) == 0 && WordAt(data, at + 24, 8) == 0
  }

  lemma RowParts(before: seq<byte>, row: UnwindRow)
    ensures var at := |before|;
            var data := before + LE(row.start, 8) + LE(row.length, 4) + LE(row.encoding, 4) + LE(0, 8) + LE(0, 8);
            && SliceAt(data, at, LE(row.start, 8)) && SliceAt(data, at + 8, LE(row.length, 4))
            && SliceAt(data, at + 12, LE(row.encoding, 4)) && SliceAt(data, at + 16, LE(0, 8)) && SliceAt(data, at + 24, LE(0, 8))
  {
    hide LE;
    var a, b, c, z := LE(row.start, 8), LE(row.length, 4), LE(row.encoding, 4), LE(0, 8);
    var data := before + a + b + c + z + z;
    assert data == before + a + (b + c + z + z) && data == (before + a) + b + (c + z + z);
    assert data == (before + a + b) + c + (z + z) && data == (before + a + b + c) + z + z && data == (before + a + b + c + z) + z + [];
    SlicePiece(data, before, a, b + c + z + z);
    SlicePiece(data, before + a, b, c + z + z);
    SlicePiece(data, before + a + b, c, z + z);
    SlicePiece(data, before + a + b + c, z, z);
    SlicePiece(data, before + a + b + c + z, z, []);
  }

  lemma LastRow(before: seq<byte>, row: UnwindRow, k: nat)
    requires |before| == k * COMPACT_ENTRY && row.length <= U32_MAX && row.encoding <= U32_MAX
    ensures RowAt(before + LE(row.start, 8) + LE(row.length, 4) + LE(row.encoding, 4) + LE(0, 8) + LE(0, 8), k, row)
  {
    hide LE, WordAt, SliceAt;
    RowParts(before, row);
    Pow256Values();
    var data, at := before + LE(row.start, 8) + LE(row.length, 4) + LE(row.encoding, 4) + LE(0, 8) + LE(0, 8), |before|;
    WordRead(data, at, row.start, 8);
    WordRead(data, at + 8, row.length, 4);
    WordRead(data, at + 12, row.encoding, 4);
    WordRead(data, at + 16, 0, 8);
    WordRead(data, at + 24, 0, 8);
  }

  lemma WordKept(before: seq<byte>, more: seq<byte>, at: nat, n: nat)
    requires at + n <= |before|
    ensures WordAt(before + more, at, n) == WordAt(before, at, n)
  {
    assert (before + more)[at..at + n] == before[at..at + n];
  }

  lemma RowKept(before: seq<byte>, more: seq<byte>, k: nat, row: UnwindRow)
    requires RowAt(before, k, row)
    ensures RowAt(before + more, k, row)
  {
    hide WordAt;
    var at := k * COMPACT_ENTRY;
    WordKept(before, more, at, 8);
    WordKept(before, more, at + 8, 4);
    WordKept(before, more, at + 12, 4);
    WordKept(before, more, at + 16, 8);
    WordKept(before, more, at + 24, 8);
  }

  lemma {:induction false} RowLocated(rows: seq<UnwindRow>, k: nat)
    requires k < |rows| && forall i :: 0 <= i < |rows| ==> rows[i].length <= U32_MAX && rows[i].encoding <= U32_MAX
    ensures RowAt(CompactBytes(rows), k, rows[k])
  {
    hide LE, RowAt;
    var last := |rows| - 1;
    var row, before := rows[last], CompactBytes(rows[..last]);
    CompactLength(rows[..last]);
    if k < last {
      RowLocated(rows[..last], k);
      var more := LE(row.start, 8) + LE(row.length, 4) + LE(row.encoding, 4) + LE(0, 8) + LE(0, 8);
      assert CompactBytes(rows) == before + more;
      RowKept(before, more, k, rows[k]);
    } else {
      LastRow(before, row, last);
    }
  }

  /**
    What an unwinder finds for procedure k in the generated sections: its range, and either a compact
    encoding of its final rule or a frame whose instructions decode to exactly its recorded events.
   */
  lemma ProcReadBack(rows: seq<UnwindRow>, frames: seq<FrameRecord>, procs: seq<Finished>, k: nat)
    requires Described(rows, frames, procs) && k < |rows|
    requires frames == [] || (FramesFit(Lengths(frames)) && FramesSize(Lengths(frames)) <= U32_MAX)
    ensures RowAt(CompactBytes(rows), k, rows[k]) && RowCovers(rows[k], procs[k])
    ensures if rows[k].encoding != CompactUnwind.MODE_DWARF then CompactUnwind.DecodeCompact(rows[k].encoding) == Some(procs[k].facts.rules)
            else
              var f := DwarfRows(rows, k);
              && f < |frames| && frames[f].length == rows[k].length
              && var start := FramesSize(Lengths(frames[..f]));
              && FrameAt(FrameBytes(frames), start, frames[f])
              && DecodeInstructions(FrameBytes(frames)[start + 25..start + 25 + |frames[f].instructions|], 0) == Some(procs[k].facts.events)
  {
    hide FrameBytes, CompactBytes, RowAt, DecodeInstructions, CompactUnwind.DecodeCompact, FramesSize, FramesFit, DwarfRows, FromLE;
    assert RowMeans(rows, frames, k, procs[k]);
    forall i | 0 <= i < |rows| ensures rows[i].length <= U32_MAX && rows[i].encoding <= U32_MAX {
      assert RowMeans(rows, frames, i, procs[i]);
    }
    RowLocated(rows, k);
    if rows[k].encoding == CompactUnwind.MODE_DWARF {
      FrameLocated(frames, DwarfRows(rows, k));
    }
  }

  /** Every fixup lies inside the bytes of its section. */
  ghost predicate FixupsInside(fixups: seq<Fixup>, sections: seq<Section>) {
    forall k :: 0 <= k < |fixups| ==>
      fixups[k].section < |sections| && fixups[k].offset + fixups[k].width <= |sections[fixups[k].section].data|
  }

  lemma FixupsLonger(fixups: seq<Fixup>, a: seq<Section>, b: seq<Section>)
    requires FixupsInside(fixups, a) && Longer(a, b)
    ensures FixupsInside(fixups, b)
  {
  }

  lemma LongerSame(sections: seq<Section>)
    ensures Longer(sections, sections)
  {
  }

  lemma ReserveNone(g: Geometry)
    requires InSection(g)
    ensures Reserve(g, 0).Some? ==> Reserve(g, 0).value == g
  {
    assert g.sections[g.section := g.sections[g.section]] == g.sections;
  }

  /** Reserving twice is reserving the sum. */
  lemma ReserveMore(g: Geometry, a: nat, b: nat)
    requires InSection(g)
    ensures Reserve(g, 0).Some? ==> Reserve(g, 0).value == g
    ensures Reserve(g, a).Some? && InSection(Reserve(g, a).value) ==> Reserve(Reserve(g, a).value, b) == Reserve(g, a + b)
    ensures Reserve(g, b).Some? ==> Reserve(g, 0).Some?
  {
    ReserveNone(g);
    if Reserve(g, a).Some? && Reserve(g, a + b).Some? {
      var i := g.section;
      var x, y := Reserve(g, a).value.sections[i], Reserve(g, a + b).value.sections[i];
      assert g.sections[i := x][i := y] == g.sections[i := y];
    }
  }

  // ---- facts about extending sections --------------------------------------------------------------

  /** Every section keeps its bytes and may get more behind them. */
  ghost predicate Longer(a: seq<Section>, b: seq<Section>) {
    |a| <= |b| && forall i :: 0 <= i < |a| ==> a[i].data <= b[i].data
  }

  lemma NoCopies(bytes: seq<byte>, n: nat)
    requires bytes == []
    ensures Copies(bytes, n) == []
  {
  }

  lemma ReservedSize(g: Geometry, amount: nat)
    requires InSection(g) && Reserve(g, amount).Some?
    ensures var h := Reserve(g, amount).value;
            InSection(h) && h.section == g.section && h.sections[h.section].size == g.sections[g.section].size + amount
  {
  }

  /** If the whole can be reserved, so can its next part. */
  lemma ReservePart(g: Geometry, done: nat, next: nat, whole: nat)
    requires InSection(g) && done + next <= whole && Reserve(g, whole).Some?
    ensures Reserve(g, done).Some? && InSection(Reserve(g, done).value) && Reserve(Reserve(g, done).value, next).Some?
    ensures Reserve(g, next).Some?
  {
  }

  lemma LongerTrans(a: seq<Section>, b: seq<Section>, c: seq<Section>)
    requires Longer(a, b) && Longer(b, c)
    ensures Longer(a, c)
  {
  }

  lemma ExtendNone(sections: seq<Section>, i: nat)
    requires i < |sections|
    ensures Extend(sections, i, []) == sections
  {
    assert sections[i].data + [] == sections[i].data;
  }

  lemma ExtendFits(sections: seq<Section>, i: nat, bytes: seq<byte>)
    requires i < |sections| && sections[i].size + |bytes| <= U64_MAX
    ensures |Extend(sections, i, bytes)| == |sections|
    ensures Extend(sections, i, bytes)[i].size == sections[i].size + |bytes| && Extend(sections, i, bytes)[i].kind == sections[i].kind
  {
  }

  lemma ExtendTwice(sections: seq<Section>, i: nat, a: seq<byte>, b: seq<byte>)
    requires i < |sections| && sections[i].size + |a| + |b| <= U64_MAX
    ensures |Extend(sections, i, a)| == |sections| && Extend(sections, i, a)[i].size + |b| <= U64_MAX
    ensures Extend(Extend(sections, i, a), i, b) == Extend(sections, i, a + b)
    ensures Extend(sections, i, a)[i].kind == sections[i].kind && Extend(sections, i, a)[i].size == sections[i].size + |a|
  {
    ExtendOneTwice(sections[i], a, b);
    hide ExtendOne;
    var once := ExtendOne(sections[i], a);
    assert sections[i := once][i := ExtendOne(once, b)] == sections[i := ExtendOne(once, b)];
  }

  lemma ExtendOneTwice(s: Section, a: seq<byte>, b: seq<byte>)
    requires s.size + |a| + |b| <= U64_MAX
    ensures ExtendOne(s, a).size == s.size + |a| && ExtendOne(s, a).kind == s.kind
    ensures ExtendOne(ExtendOne(s, a), b) == ExtendOne(s, a + b)
  {
    assert s.data + a + b == s.data + (a + b);
  }

  lemma ExtendPlace(sections: seq<Section>, i: nat, bytes: seq<byte>)
    requires i < |sections| && sections[i].size + |bytes| <= U64_MAX
    ensures SlotsOf(Extend(sections, i, bytes)) == SlotsOf(sections)[i := SlotOf(sections[i]).(size := sections[i].size + |bytes|)]
    ensures AllMatch(sections) ==> AllMatch(Extend(sections, i, bytes))
    ensures Longer(sections, Extend(sections, i, bytes))
  {
  }

  /** Statement k was reached at the place its predecessors lead to. */
  ghost predicate ReachedAt(start: Geometry, stmts: seq<Stmt>, k: nat, place: (nat, u64)) {
    && k < |stmts| && InSection(start)
    && Run(start, stmts[..k]).Some? && place == Here(Run(start, stmts[..k]).value)
  }

  lemma NothingLaidOut(stmts: seq<Stmt>)
    ensures LayoutAll(stmts[..0]) == Some(InitialLayout())
  {
  }

  lemma LayoutNext(stmts: seq<Stmt>, i: nat)
    requires i < |stmts| && LayoutAll(stmts[..i]).Some?
    ensures LayoutAll(stmts[..i + 1]) == LayoutStep(LayoutAll(stmts[..i]).value, stmts[i])
    ensures ReachedAt(InitialGeometry(), stmts, i, Here(LayoutAll(stmts[..i]).value.geometry))
  {
    hide LayoutStep, Run;
    assert stmts[..i + 1][..i] == stmts[..i] && stmts[..i + 1][i] == stmts[i];
    LayoutAllGeometry(stmts[..i]);
  }

  lemma {:induction false} LayoutStops(stmts: seq<Stmt>, i: nat)
    requires i <= |stmts| && LayoutAll(stmts[..i]).None?
    ensures LayoutAll(stmts).None?
  {
    if LayoutAll(stmts).Some? {
      LayoutPrefix(stmts, i);
    }
  }

  function FactsOf(p: CfiProc): ProcFacts
    reads p
  {
    ProcFacts(p.startSection, p.startOffset, p.Tracked(), p.compactForbidden, p.events)
  }

  /** The compact encoding of a finished procedure, or the DWARF marker and the instruction bytes. */
  method EncodeProc(p: CfiProc) returns (r: Option<(nat, Option<seq<byte>>)>)
    requires p.Valid()
    ensures r.Some? ==> ProcEncoded(FactsOf(p), r.value.0, r.value.1)
    ensures r.None? <==> ProcRefused(FactsOf(p))
  {
    hide EncodeEvents, DecodeInstructions, CompactUnwind.DecodeCompact, Replay;
    var encoding := CompactUnwind.CompactUnwindEncoding(p);
    if encoding.Err? {
      return None;
    }
    if encoding.value.Some? {
      return Some((encoding.value.value, None));
    }
    var instructions := EhFrameInstructions(p.events);
    if instructions.Err? {
      return None;
    }
    return Some((CompactUnwind.MODE_DWARF, Some(instructions.value)));
  }

  function Lengths(frames: seq<FrameRecord>): (ns: seq<nat>)
    ensures |ns| == |frames| && forall i :: 0 <= i < |frames| ==> ns[i] == |frames[i].instructions|
  {
    seq(|frames|, i requires 0 <= i < |frames| => |frames[i].instructions|)
  }
}
