/**
  What a statement does to section layout, as a function on values (src/assemble.rs): the current
  section, the sections with their sizes and alignments, labels, and the unwind records that will
  become sections of their own. The two passes of the assembler are proved against it.
 */
module Layout {
  import opened Words
  import opened Expr
  import opened SectionBases
  import opened Cfi

  datatype SectionKind =
    | Text | Data | CStringLiterals | Literal16 | ConstData
    | ThreadLocalData | ThreadLocalZeroFill | ThreadLocalVariables
    | CompactUnwindKind | EhFrameKind | ZeroFill

  predicate IsZerofill(kind: SectionKind) { kind == ZeroFill || kind == ThreadLocalZeroFill }

  datatype Slot = Slot(segment: string, name: string, kind: SectionKind, align: nat, size: u64)

  datatype Stmt =
    | Label(name: string)
    | Instruction(word: nat)
    | InstructionWithReloc(word: nat)
    | SwitchTo(segment: string, sect: string)
    | Align(power: nat, fill: Option<byte>, maxSkip: Option<u64>)
    | DataValues(width: nat, values: seq<Expr>)
    | Ascii(text: seq<byte>)
    | Space(amount: u64)
    | Fill(repeat: u64, unit: nat, pattern: u64)
    | Zerofill(segment: string, sect: string, symbol: Option<string>, amount: u64, power: nat)
    | Comm(name: string, power: nat)
    | SetAbsolute(name: string, value: Expr)
    | CfiStart
    | CfiEnd
    | CfiRule(directive: CfiDirective)
    | Attribute

  const MAX_SPACE: nat := 0x400_0000
  const MAX_ALIGN_POWER: nat := 30

  /** Data directives have elements of one, two, four or eight bytes. */
  predicate WellFormedStmt(s: Stmt) {
    && (s.DataValues? ==> s.width == 1 || s.width == 2 || s.width == 4 || s.width == 8)
    && (s.Instruction? || s.InstructionWithReloc? ==> s.word <= U32_MAX)
  }

  // ---- sections by name ----------------------------------------------------------------

  function LowerChar(c: char): char {
    if 'A' <= c <= 'Z' then c - 'A' + 'a' else c
  }

  function Lower(s: string): string {
    seq(|s|, i requires 0 <= i < |s| => LowerChar(s[i]))
  }

  function SupportedSection(segment: string, sect: string): Option<(string, string, SectionKind)> {
    var seg, sec := Lower(segment), Lower(sect);
    if seg == "__text" && sec == "__text" then Some(("__TEXT", "__text", Text))
    else if seg == "__text" && sec == "__cstring" then Some(("__TEXT", "__cstring", CStringLiterals))
    else if seg == "__text" && sec == "__literal16" then Some(("__TEXT", "__literal16", Literal16))
    else if seg == "__text" && sec == "__const" then Some(("__TEXT", "__const", ConstData))
    else if seg == "__data" && sec == "__data" then Some(("__DATA", "__data", Data))
    else if seg == "__data" && sec == "__const" then Some(("__DATA", "__const", ConstData))
    else if seg == "__data" && sec == "__thread_data" then Some(("__DATA", "__thread_data", ThreadLocalData))
    else if seg == "__data" && sec == "__thread_vars" then Some(("__DATA", "__thread_vars", ThreadLocalVariables))
    else if seg == "__data" && sec == "__thread_bss" then Some(("__DATA", "__thread_bss", ThreadLocalZeroFill))
    else if seg == "__data" && sec == "__bss" then Some(("__DATA", "__bss", ZeroFill))
    else None
  }

  predicate Named(slot: Slot, segment: string, name: string) {
    slot.segment == segment && slot.name == name
  }

  /** The first section with the name, or the number of sections. */
  function FindSection(sections: seq<Slot>, segment: string, name: string): (i: nat)
    ensures i <= |sections|
    ensures i < |sections| ==> Named(sections[i], segment, name)
    ensures forall k :: 0 <= k < i ==> !Named(sections[k], segment, name)
  {
    if sections == [] || Named(sections[0], segment, name) then 0 else 1 + FindSection(sections[1..], segment, name)
  }

  datatype Geometry = Geometry(section: nat, sections: seq<Slot>)

  predicate InSection(g: Geometry) { g.section < |g.sections| }

  function InitialGeometry(): Geometry { Geometry(0, [Slot("__TEXT", "__text", Text, 0, 0)]) }

  // ---- one statement ------------------------------------------------------------------------

  function Resized(g: Geometry, i: nat, align: nat, size: u64): Geometry
    requires i < |g.sections|
  {
    g.(sections := g.sections[i := g.sections[i].(align := align, size := size)])
  }

  function Reserve(g: Geometry, amount: nat): Option<Geometry>
    requires InSection(g)
  {
    var slot := g.sections[g.section];
    if IsZerofill(slot.kind) || slot.size + amount > U64_MAX then None
    else Some(Resized(g, g.section, slot.align, slot.size + amount))
  }

  function EnsureSection(g: Geometry, segment: string, sect: string): Option<(Geometry, nat)> {
    var supported := SupportedSection(segment, sect);
    if supported.None? then None
    else
      var (seg, name, kind) := supported.value;
      var i := FindSection(g.sections, seg, name);
      if i < |g.sections| then Some((g, i))
      else Some((g.(sections := g.sections + [Slot(seg, name, kind, 0, 0)]), i))
  }

  function AlignStep(g: Geometry, power: nat, maxSkip: Option<u64>): Option<Geometry>
    requires InSection(g)
  {
    var slot := g.sections[g.section];
    if power > MAX_ALIGN_POWER then None
    else
      var aligned := CheckedAlignValue(slot.size, power);
      if aligned.None? then None
      else
        var skipped := maxSkip.Some? && aligned.value - slot.size > maxSkip.value;
        Some(Resized(g, g.section, Max(slot.align, power), if skipped then slot.size else aligned.value))
  }

  function ZerofillStep(g: Geometry, segment: string, sect: string, amount: u64, power: nat): Option<Geometry> {
    if power > MAX_ALIGN_POWER then None
    else
      var ensured := EnsureSection(g, segment, sect);
      if ensured.None? then None
      else
        var (h, i) := ensured.value;
        var slot := h.sections[i];
        var aligned := CheckedAlignValue(slot.size, power);
        if !IsZerofill(slot.kind) || aligned.None? || aligned.value + amount > U64_MAX then None
        else Some(Resized(h, i, Max(slot.align, power), aligned.value + amount))
  }

  function FillTotal(repeat: u64, unit: nat): nat { repeat * Min(unit, 8) }

  /** The effect on the current section and on section sizes and alignments; None where layout fails. */
  function Step(g: Geometry, s: Stmt): Option<Geometry>
    requires InSection(g)
  {
    match s
    case Instruction(_) => Reserve(g, 4)
    case InstructionWithReloc(_) => Reserve(g, 4)
    case SwitchTo(segment, sect) =>
      var ensured := EnsureSection(g, segment, sect);
      if ensured.None? then None else Some(ensured.value.0.(section := ensured.value.1))
    case Align(power, _, maxSkip) => AlignStep(g, power, maxSkip)
    case DataValues(width, values) => Reserve(g, |values| * width)
    case Ascii(text) => Reserve(g, |text|)
    case Space(amount) =>
      var slot := g.sections[g.section];
      if amount > MAX_SPACE || slot.size + amount > U64_MAX then None
      else Some(Resized(g, g.section, slot.align, slot.size + amount))
    case Fill(repeat, unit, _) => if FillTotal(repeat, unit) > U64_MAX then None else Reserve(g, FillTotal(repeat, unit))
    case Zerofill(segment, sect, _, amount, power) => ZerofillStep(g, segment, sect, amount, power)
    case _ => Some(g)
  }

  /** Sections have distinct names and small alignments, and one of them is current. */
  ghost predicate GeometryOk(g: Geometry) {
    && InSection(g)
    && (forall i, j :: 0 <= i < j < |g.sections| ==> !Named(g.sections[j], g.sections[i].segment, g.sections[i].name))
    && (forall i :: 0 <= i < |g.sections| ==> g.sections[i].align <= MAX_ALIGN_POWER)
  }

  lemma EnsureOk(g: Geometry, segment: string, sect: string)
    requires GeometryOk(g)
    ensures var e := EnsureSection(g, segment, sect);
            e.Some? ==> GeometryOk(e.value.0) && e.value.1 < |e.value.0.sections| && e.value.0.section == g.section
  {
    var e := EnsureSection(g, segment, sect);
    if e.Some? {
      var sections := e.value.0.sections;
      forall i, j | 0 <= i < j < |sections| ensures !Named(sections[j], sections[i].segment, sections[i].name) {
        if j == |g.sections| {
          assert !Named(sections[i], sections[j].segment, sections[j].name);
        }
      }
    }
  }

  lemma StepOk(g: Geometry, s: Stmt)
    requires GeometryOk(g)
    ensures Step(g, s).Some? ==> GeometryOk(Step(g, s).value)
  {
    hide SupportedSection, CheckedAlignValue, EnsureSection;
    match s
    case SwitchTo(segment, sect) => EnsureOk(g, segment, sect);
    case Zerofill(segment, sect, _, amount, power) => EnsureOk(g, segment, sect);
    case _ =>
  }

  // ---- growth along a run ---------------------------------------------------------------------

  /** The same sections by name and kind, alignments and sizes no smaller, and possibly more sections. */
  ghost predicate Grown(g: Geometry, h: Geometry) {
    && |g.sections| <= |h.sections|
    && forall i :: 0 <= i < |g.sections| ==> SlotGrown(g.sections[i], h.sections[i])
  }

  predicate SlotGrown(a: Slot, b: Slot) {
    a.segment == b.segment && a.name == b.name && a.kind == b.kind && a.align <= b.align && a.size <= b.size
  }

  lemma CheckedAlignGrows(value: u64, power: nat)
    ensures CheckedAlignValue(value, power).Some? ==> value <= CheckedAlignValue(value, power).value <= U64_MAX
  {
    if power < 64 {
      CheckedAlignExact(value, power);
      AlignUpLeast(value, power);
    }
  }

  lemma EnsureGrows(g: Geometry, segment: string, sect: string)
    ensures var e := EnsureSection(g, segment, sect); e.Some? ==> Grown(g, e.value.0)
  {
    hide SupportedSection;
  }

  lemma StepGrows(g: Geometry, s: Stmt)
    requires InSection(g)
    ensures Step(g, s).Some? ==> InSection(Step(g, s).value) && Grown(g, Step(g, s).value)
  {
    hide SupportedSection, CheckedAlignValue, EnsureSection;
    match s
    case SwitchTo(segment, sect) => EnsureGrows(g, segment, sect); EnsureTarget(g, segment, sect);
    case Zerofill(segment, sect, _, amount, power) =>
      EnsureGrows(g, segment, sect);
      EnsureTarget(g, segment, sect);
      var e := EnsureSection(g, segment, sect);
      if e.Some? { CheckedAlignGrows(e.value.0.sections[e.value.1].size, power); }
    case Align(power, _, _) => CheckedAlignGrows(g.sections[g.section].size, power);
    case _ =>
  }

  lemma EnsureTarget(g: Geometry, segment: string, sect: string)
    ensures var e := EnsureSection(g, segment, sect); e.Some? ==> e.value.1 < |e.value.0.sections| && e.value.0.section == g.section
  {
    hide SupportedSection;
  }

  /** The geometry after a list of statements. */
  function Run(g: Geometry, stmts: seq<Stmt>): (r: Option<Geometry>)
    requires InSection(g)
    ensures r.Some? ==> InSection(r.value)
  {
    if stmts == [] then Some(g)
    else
      var before := Run(g, stmts[..|stmts| - 1]);
      if before.None? then None
      else
        StepGrows(before.value, stmts[|stmts| - 1]);
        Step(before.value, stmts[|stmts| - 1])
  }

  lemma {:induction false} RunPrefix(g: Geometry, stmts: seq<Stmt>, k: nat)
    requires InSection(g) && k <= |stmts| && Run(g, stmts).Some?
    ensures Run(g, stmts[..k]).Some? && Grown(Run(g, stmts[..k]).value, Run(g, stmts).value)
  {
    hide Step;
    if k == |stmts| {
      assert stmts[..k] == stmts;
    } else {
      var last := |stmts| - 1;
      RunPrefix(g, stmts[..last], k);
      assert stmts[..last][..k] == stmts[..k];
      StepGrows(Run(g, stmts[..last]).value, stmts[last]);
    }
  }

  lemma {:induction false} RunOk(g: Geometry, stmts: seq<Stmt>)
    requires GeometryOk(g) && Run(g, stmts).Some?
    ensures GeometryOk(Run(g, stmts).value)
  {
    hide Step;
    if stmts != [] {
      RunOk(g, stmts[..|stmts| - 1]);
      StepOk(Run(g, stmts[..|stmts| - 1]).value, stmts[|stmts| - 1]);
    }
  }

  // ---- the second pass starts with every section present ---------------------------------------

  /** All sections of the finished layout with their alignments, and nothing in them. */
  function Emptied(final: Geometry): Geometry {
    Geometry(0, seq(|final.sections|, i requires 0 <= i < |final.sections| => final.sections[i].(size := 0)))
  }

  /** The second pass stands where the first one did: same section, same sizes, everything else still empty. */
  ghost predicate Follows(g: Geometry, e: Geometry, final: Geometry) {
    && InSection(g) && e.section == g.section
    && |g.sections| <= |e.sections| == |final.sections|
    && (forall i :: 0 <= i < |e.sections| ==> e.sections[i] == final.sections[i].(size := e.sections[i].size))
    && (forall i :: 0 <= i < |g.sections| ==> SlotGrown(g.sections[i], final.sections[i]) && e.sections[i].size == g.sections[i].size)
    && (forall i :: |g.sections| <= i < |e.sections| ==> e.sections[i].size == 0)
  }

  lemma FollowsFromStart(final: Geometry)
    requires Grown(InitialGeometry(), final)
    ensures Follows(InitialGeometry(), Emptied(final), final)
  {
  }

  lemma EnsureFollows(g: Geometry, e: Geometry, final: Geometry, segment: string, sect: string)
    requires Follows(g, e, final) && GeometryOk(final)
    requires EnsureSection(g, segment, sect).Some?
    requires Grown(EnsureSection(g, segment, sect).value.0, final)
    ensures var h := EnsureSection(g, segment, sect).value;
            EnsureSection(e, segment, sect) == Some((e, h.1)) && Follows(h.0, e, final)
  {
    hide SupportedSection;
    var (seg, name, kind) := SupportedSection(segment, sect).value;
    var (h, i) := EnsureSection(g, segment, sect).value;
    var j := FindSection(e.sections, seg, name);
    assert Named(h.sections[i], seg, name) && SlotGrown(h.sections[i], final.sections[i]);
    assert Named(e.sections[i], seg, name);
    assert j <= i && Named(final.sections[j], seg, name);
  }

  /** The second pass takes the same step: if layout succeeded, so does the size arithmetic, with the same result. */
  lemma StepFollows(g: Geometry, e: Geometry, final: Geometry, s: Stmt)
    requires Follows(g, e, final) && GeometryOk(final)
    requires Step(g, s).Some? && Grown(Step(g, s).value, final)
    ensures Step(e, s).Some? && Follows(Step(g, s).value, Step(e, s).value, final)
  {
    hide EnsureSection, AlignStep, ZerofillStep, Reserve, GeometryOk, Grown;
    match s
    case Instruction(_) => ReserveFollows(g, e, final, 4);
    case InstructionWithReloc(_) => ReserveFollows(g, e, final, 4);
    case SwitchTo(segment, sect) => SwitchFollows(g, e, final, segment, sect);
    case Zerofill(segment, sect, _, amount, power) => ZerofillFollows(g, e, final, segment, sect, amount, power);
    case Align(power, _, maxSkip) => AlignFollows(g, e, final, power, maxSkip);
    case DataValues(width, values) => ReserveFollows(g, e, final, |values| * width);
    case Ascii(text) => ReserveFollows(g, e, final, |text|);
    case Space(amount) => SpaceFollows(g, e, final, amount);
    case Fill(repeat, unit, _) => ReserveFollows(g, e, final, FillTotal(repeat, unit));
    case _ =>
  }

  lemma ReserveFollows(g: Geometry, e: Geometry, final: Geometry, amount: nat)
    requires Follows(g, e, final) && Reserve(g, amount).Some? && Grown(Reserve(g, amount).value, final)
    ensures Reserve(e, amount).Some? && Follows(Reserve(g, amount).value, Reserve(e, amount).value, final)
  {
  }

  lemma SpaceFollows(g: Geometry, e: Geometry, final: Geometry, amount: u64)
    requires Follows(g, e, final) && Step(g, Space(amount)).Some? && Grown(Step(g, Space(amount)).value, final)
    ensures Step(e, Space(amount)).Some? && Follows(Step(g, Space(amount)).value, Step(e, Space(amount)).value, final)
  {
  }

  lemma SwitchFollows(g: Geometry, e: Geometry, final: Geometry, segment: string, sect: string)
    requires Follows(g, e, final) && GeometryOk(final)
    requires Step(g, SwitchTo(segment, sect)).Some? && Grown(Step(g, SwitchTo(segment, sect)).value, final)
    ensures Step(e, SwitchTo(segment, sect)).Some?
    ensures Follows(Step(g, SwitchTo(segment, sect)).value, Step(e, SwitchTo(segment, sect)).value, final)
  {
    hide EnsureSection, GeometryOk;
    EnsureTarget(g, segment, sect);
    EnsureFollows(g, e, final, segment, sect);
  }

  lemma AlignFollows(g: Geometry, e: Geometry, final: Geometry, power: nat, maxSkip: Option<u64>)
    requires Follows(g, e, final)
    requires AlignStep(g, power, maxSkip).Some? && Grown(AlignStep(g, power, maxSkip).value, final)
    ensures AlignStep(e, power, maxSkip).Some?
    ensures Follows(AlignStep(g, power, maxSkip).value, AlignStep(e, power, maxSkip).value, final)
  {
    hide CheckedAlignValue;
    CheckedAlignGrows(g.sections[g.section].size, power);
    assert SlotGrown(AlignStep(g, power, maxSkip).value.sections[g.section], final.sections[g.section]);
  }

  lemma ZerofillFollows(g: Geometry, e: Geometry, final: Geometry, segment: string, sect: string, amount: u64, power: nat)
    requires Follows(g, e, final) && GeometryOk(final)
    requires ZerofillStep(g, segment, sect, amount, power).Some? && Grown(ZerofillStep(g, segment, sect, amount, power).value, final)
    ensures ZerofillStep(e, segment, sect, amount, power).Some?
    ensures Follows(ZerofillStep(g, segment, sect, amount, power).value, ZerofillStep(e, segment, sect, amount, power).value, final)
  {
    hide SupportedSection, CheckedAlignValue, EnsureSection;
    EnsureTarget(g, segment, sect);
    var (h, i) := EnsureSection(g, segment, sect).value;
    CheckedAlignGrows(h.sections[i].size, power);
    assert Grown(h, ZerofillStep(g, segment, sect, amount, power).value);
    GrownTrans(h, ZerofillStep(g, segment, sect, amount, power).value, final);
    EnsureFollows(g, e, final, segment, sect);
  }

  lemma GrownTrans(a: Geometry, b: Geometry, c: Geometry)
    requires Grown(a, b) && Grown(b, c)
    ensures Grown(a, c)
  {
    forall i | 0 <= i < |a.sections| ensures SlotGrown(a.sections[i], c.sections[i]) {
      assert SlotGrown(a.sections[i], b.sections[i]) && SlotGrown(b.sections[i], c.sections[i]);
    }
  }

  /** The two passes agree after every prefix of the statements. */
  lemma {:induction false} PassesFollow(stmts: seq<Stmt>, k: nat)
    requires k <= |stmts| && Run(InitialGeometry(), stmts).Some?
    ensures var final := Run(InitialGeometry(), stmts).value;
            && Run(Emptied(final), stmts[..k]).Some?
            && Run(InitialGeometry(), stmts[..k]).Some?
            && Follows(Run(InitialGeometry(), stmts[..k]).value, Run(Emptied(final), stmts[..k]).value, final)
  {
    hide Step, Emptied, Follows;
    var final := Run(InitialGeometry(), stmts).value;
    RunPrefix(InitialGeometry(), stmts, k);
    EmptiedInSection(stmts);
    if k == 0 {
      assert Grown(InitialGeometry(), final) by { RunPrefix(InitialGeometry(), stmts, 0); assert stmts[..0] == []; }
      FollowsFromStart(final);
    } else {
      PassesFollow(stmts, k - 1);
      assert stmts[..k][..k - 1] == stmts[..k - 1];
      RunOk(InitialGeometry(), stmts);
      StepFollows(Run(InitialGeometry(), stmts[..k - 1]).value, Run(Emptied(final), stmts[..k - 1]).value, final, stmts[k - 1]);
    }
  }

  lemma EmptiedInSection(stmts: seq<Stmt>)
    requires Run(InitialGeometry(), stmts).Some?
    ensures InSection(Emptied(Run(InitialGeometry(), stmts).value))
  {
    RunPrefix(InitialGeometry(), stmts, 0);
    assert stmts[..0] == [];
  }

  /** At the end the second pass has rebuilt the finished layout. */
  lemma PassesMeet(stmts: seq<Stmt>)
    requires Run(InitialGeometry(), stmts).Some?
    ensures InSection(Emptied(Run(InitialGeometry(), stmts).value))
    ensures Run(Emptied(Run(InitialGeometry(), stmts).value), stmts) == Run(InitialGeometry(), stmts)
  {
    hide Step;
    EmptiedInSection(stmts);
    PassesFollow(stmts, |stmts|);
    assert stmts[..|stmts|] == stmts;
    var final := Run(InitialGeometry(), stmts).value;
    var e := Run(Emptied(final), stmts).value;
    assert e.sections == final.sections;
  }
}
