/**
  The whole state of the layout pass as a value (src/assemble.rs): geometry, labels, common and
  absolute names, the open CFI procedure, and the unwind records. Its runs only ever grow the sections.
 */
module LayoutRun {
  import opened Words
  import opened SectionBases
  import opened Cfi
  import opened Layout
  import CompactUnwind

  datatype ProcFacts = ProcFacts(section: nat, start: u64, rules: Rules, forbidden: bool, events: seq<CfiEvent>)

  /** `rows` counts compact unwind rows, `frames` lists the instruction lengths of DWARF records. */
  datatype LayoutState = LayoutState(geometry: Geometry, labels: map<string, (nat, u64)>, commons: set<string>,
                                     absolutes: set<string>, proc: Option<ProcFacts>, rows: nat, frames: seq<nat>)

  function InitialLayout(): LayoutState {
    LayoutState(InitialGeometry(), map[], {}, {}, None, 0, [])
  }

  function Here(g: Geometry): (nat, u64)
    requires InSection(g)
  {
    (g.section, g.sections[g.section].size)
  }

  ghost predicate Encodable(rules: Rules) {
    exists f: nat :: CompactUnwind.DecodeCompact(f) == Some(rules)
  }

  /** The compact encoder refuses a stack size it cannot write. */
  predicate StackRefused(p: ProcFacts) {
    !p.forbidden && p.rules.register == SP && (p.rules.offset % 16 != 0 || p.rules.offset > 0xFFF * 16)
  }

  ghost function EndProc(l: LayoutState, p: ProcFacts): Option<LayoutState>
    requires InSection(l.geometry)
  {
    var (section, offset) := Here(l.geometry);
    if p.section != section || offset < p.start || offset - p.start > U32_MAX || StackRefused(p) then None
    else if !p.forbidden && Encodable(p.rules) then Some(l.(proc := None, rows := l.rows + 1))
    else
      var bytes := EncodeEvents(p.events);
      if bytes.Err? then None else Some(l.(proc := None, rows := l.rows + 1, frames := l.frames + [|bytes.value|]))
  }

  function RuleStep(l: LayoutState, p: ProcFacts, dir: CfiDirective): Option<LayoutState>
    requires InSection(l.geometry)
  {
    if p.rules.offset < 0 || Direct(p.rules, dir).Err? then None
    else
      var event := CfiEvent(Max(0, Here(l.geometry).1 - p.start), RecordedOp(p.rules, dir));
      Some(l.(proc := Some(p.(rules := Direct(p.rules, dir).value, events := p.events + [event],
                              forbidden := p.forbidden || dir.CfiRestore? || dir.CfiAdjustCfaOffset?))))
  }

  predicate Taken(l: LayoutState, name: string) {
    name in l.labels || name in l.commons || name in l.absolutes
  }

  /** Where a `.zerofill` symbol is put. */
  function ZerofillAt(g: Geometry, s: Stmt): (nat, u64)
    requires s.Zerofill? && InSection(g) && Step(g, s).Some?
  {
    EnsureTarget(g, s.segment, s.sect);
    var (h, i) := EnsureSection(g, s.segment, s.sect).value;
    CheckedAlignGrows(h.sections[i].size, s.power);
    (i, CheckedAlignValue(h.sections[i].size, s.power).value)
  }

  ghost function LayoutStep(l: LayoutState, s: Stmt): Option<LayoutState>
    requires InSection(l.geometry)
  {
    match s
    case Label(name) =>
      if name in l.commons || name in l.labels then None else Some(l.(labels := l.labels[name := Here(l.geometry)]))
    case SetAbsolute(name, _) => Some(l.(absolutes := l.absolutes + {name}))
    case Comm(name, power) =>
      if power > 15 || name in l.labels || name in l.absolutes then None else Some(l.(commons := l.commons + {name}))
    case CfiStart =>
      var (section, offset) := Here(l.geometry);
      if l.proc.Some? || l.geometry.sections[section].kind != Text || (section, offset) !in l.labels.Values then None
      else Some(l.(proc := Some(ProcFacts(section, offset, InitialRules(), false, []))))
    case CfiEnd => if l.proc.None? then None else EndProc(l, l.proc.value)
    case CfiRule(dir) => if l.proc.None? then None else RuleStep(l, l.proc.value, dir)
    case Zerofill(segment, sect, symbol, amount, power) =>
      var g := Step(l.geometry, s);
      if g.None? || (symbol.Some? && Taken(l, symbol.value)) then None
      else if symbol.None? then Some(l.(geometry := g.value))
      else Some(l.(geometry := g.value, labels := l.labels[symbol.value := ZerofillAt(l.geometry, s)]))
    case _ =>
      var g := Step(l.geometry, s);
      if g.None? then None else Some(l.(geometry := g.value))
  }

  /** The geometry follows `Step` alone: labels and CFI only decide whether the pass succeeds. */
  lemma LayoutGeometry(l: LayoutState, s: Stmt)
    requires InSection(l.geometry)
    ensures LayoutStep(l, s).Some? ==>
              && Step(l.geometry, s) == Some(LayoutStep(l, s).value.geometry)
              && InSection(LayoutStep(l, s).value.geometry)
  {
    hide EnsureSection, CheckedAlignValue, Reserve, AlignStep, ZerofillStep;
    StepGrows(l.geometry, s);
  }

  ghost function LayoutAll(stmts: seq<Stmt>): (r: Option<LayoutState>)
    ensures r.Some? ==> InSection(r.value.geometry)
  {
    if stmts == [] then Some(InitialLayout())
    else
      var before := LayoutAll(stmts[..|stmts| - 1]);
      if before.None? then None
      else
        LayoutGeometry(before.value, stmts[|stmts| - 1]);
        LayoutStep(before.value, stmts[|stmts| - 1])
  }

  lemma {:induction false} LayoutAllGeometry(stmts: seq<Stmt>)
    ensures LayoutAll(stmts).Some? ==> Run(InitialGeometry(), stmts) == Some(LayoutAll(stmts).value.geometry)
  {
    hide Step, LayoutStep;
    if stmts != [] {
      LayoutAllGeometry(stmts[..|stmts| - 1]);
      if LayoutAll(stmts[..|stmts| - 1]).Some? {
        LayoutGeometry(LayoutAll(stmts[..|stmts| - 1]).value, stmts[|stmts| - 1]);
      }
    }
  }

  lemma {:induction false} LayoutPrefix(stmts: seq<Stmt>, k: nat)
    requires k <= |stmts| && LayoutAll(stmts).Some?
    ensures LayoutAll(stmts[..k]).Some?
  {
    if k == |stmts| {
      assert stmts[..k] == stmts;
    } else {
      LayoutPrefix(stmts[..|stmts| - 1], k);
      assert stmts[..|stmts| - 1][..k] == stmts[..k];
    }
  }

  // ---- generated unwind sections ------------------------------------------------------------

  const COMPACT_ENTRY: nat := 32
  const CIE_SIZE: nat := 20
  const FDE_FIXED: nat := 25

  function FramesSize(frames: seq<nat>): nat {
    if frames == [] then CIE_SIZE else FramesSize(frames[..|frames| - 1]) + FDE_FIXED + frames[|frames| - 1]
  }

  predicate FramesFit(frames: seq<nat>) {
    && FramesSize(frames) <= U64_MAX
    && forall i :: 0 <= i < |frames| ==> FDE_FIXED + frames[i] - 4 <= U32_MAX
  }

  function CompactSlot(rows: nat): Slot
    requires rows * COMPACT_ENTRY <= U64_MAX
  {
    Slot("__LD", "__compact_unwind", CompactUnwindKind, 3, rows * COMPACT_ENTRY)
  }

  function FrameSlot(frames: seq<nat>): Slot
    requires FramesFit(frames)
  {
    Slot("__TEXT", "__eh_frame", EhFrameKind, 3, FramesSize(frames))
  }

  /** The sections reserved for unwind records, behind the source's own. */
  function UnwindSlots(rows: nat, frames: seq<nat>): Option<seq<Slot>> {
    if (rows != 0 && rows * COMPACT_ENTRY > U64_MAX) || (frames != [] && !FramesFit(frames)) then None
    else Some((if rows != 0 then [CompactSlot(rows)] else []) + (if frames != [] then [FrameSlot(frames)] else []))
  }

  function AllSlots(l: LayoutState): Option<seq<Slot>> {
    var unwind := UnwindSlots(l.rows, l.frames);
    if unwind.None? then None else Some(l.geometry.sections + unwind.value)
  }

  function ExtentOf(s: Slot): Extent { Extent(s.align, s.size, IsZerofill(s.kind)) }

  function Extents(slots: seq<Slot>): (es: seq<Extent>)
    ensures |es| == |slots| && forall i :: 0 <= i < |slots| ==> es[i] == ExtentOf(slots[i])
  {
    seq(|slots|, i requires 0 <= i < |slots| => ExtentOf(slots[i]))
  }

  /** A longer run: more rows and frames, grown sections. */
  ghost predicate Extended(a: LayoutState, b: LayoutState) {
    && Grown(a.geometry, b.geometry) && a.rows <= b.rows && a.frames <= b.frames
  }

  lemma StepExtends(l: LayoutState, s: Stmt)
    requires InSection(l.geometry)
    ensures LayoutStep(l, s).Some? ==> Extended(l, LayoutStep(l, s).value)
  {
    hide Step, EncodeEvents;
    LayoutGeometry(l, s);
    StepGrows(l.geometry, s);
  }

  lemma {:induction false} RunExtends(stmts: seq<Stmt>, k: nat)
    requires k <= |stmts| && LayoutAll(stmts).Some?
    ensures LayoutAll(stmts[..k]).Some? && Extended(LayoutAll(stmts[..k]).value, LayoutAll(stmts).value)
  {
    hide LayoutStep;
    LayoutPrefix(stmts, k);
    if k == |stmts| {
      assert stmts[..k] == stmts;
    } else {
      var last := |stmts| - 1;
      RunExtends(stmts[..last], k);
      assert stmts[..last][..k] == stmts[..k];
      StepExtends(LayoutAll(stmts[..last]).value, stmts[last]);
      GrownTrans(LayoutAll(stmts[..k]).value.geometry, LayoutAll(stmts[..last]).value.geometry, LayoutAll(stmts).value.geometry);
    }
  }

  lemma {:induction false} FramesGrow(a: seq<nat>, b: seq<nat>)
    requires a <= b
    ensures FramesSize(a) <= FramesSize(b)
    ensures FramesFit(b) ==> FramesFit(a)
  {
    if |a| < |b| {
      var shorter := b[..|b| - 1];
      assert a <= shorter;
      FramesGrow(a, shorter);
      if FramesFit(b) {
        forall i | 0 <= i < |shorter| ensures FDE_FIXED + shorter[i] - 4 <= U32_MAX { assert shorter[i] == b[i]; }
      }
    } else {
      assert a == b;
    }
  }

  /** The generated sections of a prefix are no larger than those of the whole. */
  lemma PartsGrow(a: LayoutState, b: LayoutState)
    requires Extended(a, b) && AllSlots(b).Some?
    ensures AllSlots(a).Some? && Embeds(CompactPart(a.rows), CompactPart(b.rows)) && Embeds(FramePart(a.frames), FramePart(b.frames))
  {
    hide FramesSize, Embeds, CompactSlot, FrameSlot;
    FramesGrow(a.frames, b.frames);
    EmbedsSome(CompactPart(a.rows), CompactPart(b.rows));
    EmbedsSome(FramePart(a.frames), FramePart(b.frames));
  }

  lemma PartsJoined(l: LayoutState)
    requires AllSlots(l).Some?
    ensures Extents(AllSlots(l).value) == Extents(l.geometry.sections) + CompactPart(l.rows) + FramePart(l.frames)
  {
    hide FramesSize;
    assert Extents(AllSlots(l).value) == Extents(l.geometry.sections) + Extents(UnwindSlots(l.rows, l.frames).value);
    assert Extents(UnwindSlots(l.rows, l.frames).value) == CompactPart(l.rows) + FramePart(l.frames);
  }

  /** The sections of a shorter run embed into those of a longer one. */
  lemma SlotsEmbed(a: LayoutState, b: LayoutState)
    requires Extended(a, b) && AllSlots(b).Some?
    ensures AllSlots(a).Some? && Embeds(Extents(AllSlots(a).value), Extents(AllSlots(b).value))
  {
    hide Embeds, CompactPart, FramePart, AllSlots;
    PartsGrow(a, b);
    PartsJoined(a);
    PartsJoined(b);
    var sa, sb := Extents(a.geometry.sections), Extents(b.geometry.sections);
    var n := |sa|;
    EmbedsPointwise(sa, sb[..n]);
    EmbedsAppend(sa, sb[..n], sb[n..]);
    assert sb[..n] + sb[n..] == sb;
    EmbedsConcat(sa, sb, CompactPart(a.rows), CompactPart(b.rows));
    EmbedsConcat(sa + CompactPart(a.rows), sb + CompactPart(b.rows), FramePart(a.frames), FramePart(b.frames));
  }

  function CompactPart(rows: nat): seq<Extent> { if rows == 0 then [] else [Extent(3, rows * COMPACT_ENTRY, false)] }

  function FramePart(frames: seq<nat>): seq<Extent> { if frames == [] then [] else [Extent(3, FramesSize(frames), false)] }

  lemma EmbedsSome(a: seq<Extent>, b: seq<Extent>)
    requires |a| <= |b| <= 1 && (a != [] ==> Smaller(a[0], b[0]))
    ensures Embeds(a, b)
  {
    if b != [] {
      assert b[..0] == [];
      if a != [] { assert a[..0] == []; }
    }
  }
}
