/**
  Call frame information (src/assemble.rs): directives are tracked as a current rule and recorded as
  events, and events are written as DWARF call frame instructions (DWARF 5, sections 6.4.2, 7.6 and
  7.24) with code alignment 1 and data alignment -8.
 */
module Cfi {
  import opened Words

  type Reg = r: int | 0 <= r < 32

  const SP: Reg := 31

  datatype CfiOp =
    | DefCfa(register: Reg, offset: u64)
    | DefCfaOffset(offset: u64)
    | DefCfaRegister(register: Reg)
    | Offset(register: Reg, offset: u64)
    | Restore(register: Reg)

  datatype CfiEvent = CfiEvent(codeOffset: u64, op: CfiOp)

  datatype CfiDirective =
    | CfiDefCfa(register: Reg, offset: i64)
    | CfiDefCfaOffset(offset: i64)
    | CfiDefCfaRegister(register: Reg)
    | CfiOffset(register: Reg, offset: i64)
    | CfiRestore(register: Reg)
    | CfiAdjustCfaOffset(delta: i64)

  datatype CfiError = NegativeCfa | BadSaveOffset | CfaOverflow | StackSize | OffsetsRegress | AdvanceTooFar | NotRepresentable

  // ---- the rule in force ---------------------------------------------------------------

  /** Where the frame address is, and where each saved register lies relative to it. */
  datatype Rules = Rules(register: Reg, offset: int, saved: map<Reg, int>)

  function InitialRules(): Rules { Rules(SP, 0, map[]) }

  function ReplayOne(rules: Rules, op: CfiOp): Rules {
    match op
    case DefCfa(register, offset) => rules.(register := register, offset := offset)
    case DefCfaOffset(offset) => rules.(offset := offset)
    case DefCfaRegister(register) => rules.(register := register)
    case Offset(register, offset) => rules.(saved := rules.saved[register := 0 - offset])
    case Restore(register) => rules.(saved := rules.saved - {register})
  }

  /** The unwinder's view: the rule after all recorded events. */
  function Replay(events: seq<CfiEvent>): Rules {
    if events == [] then InitialRules()
    else ReplayOne(Replay(events[..|events| - 1]), events[|events| - 1].op)
  }

  /** What a directive says about the rule in force, or why it is refused. */
  function Direct(rules: Rules, dir: CfiDirective): Result<Rules, CfiError> {
    match dir
    case CfiDefCfa(register, offset) =>
      if offset < 0 then Err(NegativeCfa) else Ok(rules.(register := register, offset := offset))
    case CfiDefCfaOffset(offset) =>
      if offset < 0 then Err(NegativeCfa) else Ok(rules.(offset := offset))
    case CfiDefCfaRegister(register) => Ok(rules.(register := register))
    case CfiOffset(register, offset) =>
      if offset > 0 || offset % 8 != 0 then Err(BadSaveOffset) else Ok(rules.(saved := rules.saved[register := offset]))
    case CfiRestore(register) => Ok(rules.(saved := rules.saved - {register}))
    case CfiAdjustCfaOffset(delta) =>
      if !IsI64(rules.offset + delta) then Err(CfaOverflow)
      else if rules.offset + delta < 0 then Err(NegativeCfa)
      else Ok(rules.(offset := rules.offset + delta))
  }

  /** The event an accepted directive records. */
  function RecordedOp(rules: Rules, dir: CfiDirective): CfiOp
    requires Direct(rules, dir).Ok? && rules.offset >= 0
  {
    match dir
    case CfiDefCfa(register, offset) => DefCfa(register, offset)
    case CfiDefCfaOffset(offset) => DefCfaOffset(offset)
    case CfiDefCfaRegister(register) => DefCfaRegister(register)
    case CfiOffset(register, offset) => Offset(register, 0 - offset)
    case CfiRestore(register) => Restore(register)
    case CfiAdjustCfaOffset(delta) => DefCfaOffset(rules.offset + delta)
  }

  /** Replaying the recorded event is taking the directive. */
  lemma RecordedReplays(rules: Rules, dir: CfiDirective)
    requires Direct(rules, dir).Ok? && rules.offset >= 0
    ensures ReplayOne(rules, RecordedOp(rules, dir)) == Direct(rules, dir).value
  {
  }

  /** Code offsets never decrease. */
  predicate InOrder(events: seq<CfiEvent>) {
    forall i, j :: 0 <= i < j < |events| ==> events[i].codeOffset <= events[j].codeOffset
  }

  class CfiProc {
    const startSection: nat
    const startOffset: u64
    var cfaRegister: Reg
    var cfaOffset: i64
    var saved: map<Reg, int>
    var compactForbidden: bool
    var events: seq<CfiEvent>

    function Tracked(): Rules
      reads this
    {
      Rules(cfaRegister, cfaOffset, saved)
    }

    /** The tracked rule is the one the events replay to. */
    ghost predicate Valid()
      reads this
    {
      Replay(events) == Tracked() && cfaOffset >= 0
    }

    constructor (startSection: nat, startOffset: u64)
      ensures Valid() && this.startSection == startSection && this.startOffset == startOffset
      ensures events == [] && !compactForbidden
      ensures Tracked() == InitialRules()
    {
      this.startSection, this.startOffset := startSection, startOffset;
      cfaRegister, cfaOffset, saved, compactForbidden, events := SP, 0, map[], false, [];
    }

    method PushEvent(current: u64, op: CfiOp)
      modifies this`events
      ensures events == old(events) + [CfiEvent(Max(0, current - startOffset), op)]
    {
      events := events + [CfiEvent(Max(0, current - startOffset), op)];
    }

    method Apply(dir: CfiDirective, current: u64) returns (r: Result<(), CfiError>)
      requires Valid()
      modifies this
      ensures Valid()
      ensures r.Ok? <==> Direct(old(Tracked()), dir).Ok?
      ensures r.Ok? ==> Tracked() == Direct(old(Tracked()), dir).value
      ensures r.Ok? ==>
                events == old(events) + [CfiEvent(Max(0, current - startOffset), RecordedOp(old(Tracked()), dir))]
      ensures r.Ok? ==> compactForbidden == (old(compactForbidden) || dir.CfiRestore? || dir.CfiAdjustCfaOffset?)
      ensures r.Err? ==> r.error == Direct(old(Tracked()), dir).error
                         && Tracked() == old(Tracked()) && events == old(events) && compactForbidden == old(compactForbidden)
    {
      hide Replay;
      ghost var before := events;
      match dir {
        case CfiDefCfa(register, offset) =>
          if offset < 0 {
            return Err(NegativeCfa);
          }
          FitsU64(offset);
          cfaRegister, cfaOffset := register, offset;
          PushEvent(current, DefCfa(register, offset));
        case CfiDefCfaOffset(offset) =>
          if offset < 0 {
            return Err(NegativeCfa);
          }
          FitsU64(offset);
          cfaOffset := offset;
          PushEvent(current, DefCfaOffset(offset));
        case CfiDefCfaRegister(register) =>
          cfaRegister := register;
          PushEvent(current, DefCfaRegister(register));
        case CfiOffset(register, offset) =>
          if offset > 0 || offset % 8 != 0 {
            return Err(BadSaveOffset);
          }
          FitsU64(0 - offset);
          saved := saved[register := offset];
          PushEvent(current, Offset(register, 0 - offset));
        case CfiRestore(register) =>
          saved := saved - {register};
          compactForbidden := true;
          PushEvent(current, Restore(register));
        case CfiAdjustCfaOffset(delta) =>
          var next := cfaOffset + delta;
          if !IsI64(next) {
            return Err(CfaOverflow);
          }
          if next < 0 {
            return Err(NegativeCfa);
          }
          FitsU64(next);
          cfaOffset := next;
          compactForbidden := true;
          PushEvent(current, DefCfaOffset(next));
      }
      ReplaySnoc(before, events[|before|]);
      return Ok(());
    }
  }

  lemma FitsU64(x: int)
    requires 0 <= x <= 0x8000_0000_0000_0000
    ensures IsU64(x)
  {
  }

  lemma ReplaySnoc(events: seq<CfiEvent>, e: CfiEvent)
    ensures Replay(events + [e]) == ReplayOne(Replay(events), e.op)
  {
    assert (events + [e])[..|events|] == events;
  }

  /** The rules after all directives of a procedure, or the first error. */
  function DirectAll(dirs: seq<(CfiDirective, u64)>): Result<Rules, CfiError> {
    if dirs == [] then Ok(InitialRules())
    else
      var before := DirectAll(dirs[..|dirs| - 1]);
      if before.Err? then before else Direct(before.value, dirs[|dirs| - 1].0)
  }

  /** A whole procedure: directives at non-decreasing positions behind the start. */
  method RunDirectives(p: CfiProc, dirs: seq<(CfiDirective, u64)>) returns (r: Result<(), CfiError>)
    requires p.Valid() && p.events == []
    requires forall i :: 0 <= i < |dirs| ==> p.startOffset <= dirs[i].1
    requires forall i, j :: 0 <= i < j < |dirs| ==> dirs[i].1 <= dirs[j].1
    modifies p
    ensures p.Valid()
    ensures var final := DirectAll(dirs);
            if r.Ok? then final == Ok(p.Tracked()) else final == Err(r.error)
    ensures r.Ok? ==> |p.events| == |dirs| && InOrder(p.events)
                      && forall i :: 0 <= i < |dirs| ==> p.events[i].codeOffset == dirs[i].1 - p.startOffset
  {
    hide Direct, RecordedOp;
    var i := 0;
    while i < |dirs|
      invariant 0 <= i <= |dirs| && p.Valid() && |p.events| == i
      invariant DirectAll(dirs[..i]) == Ok(p.Tracked())
      invariant forall k :: 0 <= k < i ==> p.events[k].codeOffset == dirs[k].1 - p.startOffset
    {
      ghost var before := p.events;
      assert dirs[..i + 1][..i] == dirs[..i];
      var step := p.Apply(dirs[i].0, dirs[i].1);
      if step.Err? {
        DirectStops(dirs, i + 1);
        return step;
      }
      assert forall k :: 0 <= k < i ==> p.events[k] == before[k];
      i := i + 1;
    }
    assert dirs[..i] == dirs;
    return Ok(());
  }

  lemma {:induction false} DirectStops(dirs: seq<(CfiDirective, u64)>, k: nat)
    requires k <= |dirs| && DirectAll(dirs[..k]).Err?
    ensures DirectAll(dirs) == DirectAll(dirs[..k])
  {
    hide Direct;
    if k == |dirs| {
      assert dirs[..k] == dirs;
    } else {
      assert dirs[..|dirs| - 1][..k] == dirs[..k];
      DirectStops(dirs[..|dirs| - 1], k);
    }
  }

  // ---- ULEB128 --------------------------------------------------------------------------------

  function Uleb(value: nat): (bs: seq<byte>)
    ensures bs != []
  {
    if value < 128 then [value] else [128 + value % 128] + Uleb(value / 128)
  }

  /** The value and the number of bytes read. */
  function DecodeUleb(bs: seq<byte>): (r: Option<(nat, nat)>)
    ensures r.Some? ==> 1 <= r.value.1 <= |bs|
  {
    if bs == [] then None
    else if bs[0] < 128 then Some((bs[0], 1))
    else
      var rest := DecodeUleb(bs[1..]);
      if rest.None? then None
      else Some((bs[0] - 128 + 128 * rest.value.0, rest.value.1 + 1))
  }

  lemma {:induction false} UlebRoundTrip(value: nat, rest: seq<byte>)
    ensures DecodeUleb(Uleb(value) + rest) == Some((value, |Uleb(value)|))
  {
    var bs := Uleb(value) + rest;
    if value >= 128 {
      UlebRoundTrip(value / 128, rest);
      assert bs[1..] == Uleb(value / 128) + rest;
    }
  }

  /** A `u64` takes at most ten bytes. */
  lemma {:induction false} UlebLength(value: nat, n: nat)
    requires n >= 1 && value < Pow2(7 * n)
    ensures |Uleb(value)| <= n
    decreases n
  {
    Pow2Add(7, 7 * (n - 1));
    Pow2Seven();
    if value >= 128 {
      if n > 1 {
        UlebLength(value / 128, n - 1);
      }
    }
  }

  lemma Pow2Seven()
    ensures Pow2(7) == 128
  {
    assert Pow2(3) == 8;
    assert Pow2(5) == 4 * Pow2(3);
    assert Pow2(7) == 4 * Pow2(5);
  }

  method EncodeUleb128(buf: seq<byte>, value: u64) returns (r: seq<byte>)
    ensures r == buf + Uleb(value)
  {
    r := buf;
    var rest: nat := value;
    var more := true;
    while more
      invariant buf + Uleb(value) == if more then r + Uleb(rest) else r
      decreases more, rest
    {
      var low := rest % 128;
      rest := rest / 128;
      if rest != 0 {
        r := r + [128 + low];
      } else {
        r := r + [low];
        more := false;
      }
    }
  }

  // ---- call frame instructions -------------------------------------------------------------------

  function AdvanceLoc(delta: nat): Result<seq<byte>, CfiError> {
    if delta == 0 then Ok([])
    else if delta <= 0x3F then Ok([0x40 + delta])
    else if delta <= 0xFF then Ok([0x02, delta])
    else if delta <= 0xFFFF then Ok([0x03] + LE(delta, 2))
    else if delta <= U32_MAX then Ok([0x04] + LE(delta, 4))
    else Err(AdvanceTooFar)
  }

  function EncodeOp(op: CfiOp): Result<seq<byte>, CfiError> {
    match op
    case DefCfa(register, offset) => Ok([0x0C] + Uleb(register) + Uleb(offset))
    case DefCfaRegister(register) => Ok([0x0D] + Uleb(register))
    case DefCfaOffset(offset) => Ok([0x0E] + Uleb(offset))
    case Offset(register, offset) =>
      if offset / 8 == 0 || offset / 8 * 8 != offset then Err(NotRepresentable)
      else Ok([0x80 + register] + Uleb(offset / 8))
    case Restore(register) => Ok([0xC0 + register])
  }

  /** The code offset reached after the events. */
  function Reached(events: seq<CfiEvent>): nat {
    if events == [] then 0 else events[|events| - 1].codeOffset
  }

  function EncodeEvents(events: seq<CfiEvent>): Result<seq<byte>, CfiError> {
    if events == [] then Ok([])
    else
      var last := |events| - 1;
      var before :- EncodeEvents(events[..last]);
      if events[last].codeOffset < Reached(events[..last]) then Err(OffsetsRegress)
      else
        var advance :- AdvanceLoc(events[last].codeOffset - Reached(events[..last]));
        var op :- EncodeOp(events[last].op);
        Ok(before + advance + op)
  }

  /** How far the advance at the front of `bs` goes, and its length. */
  function AdvanceStep(bs: seq<byte>): (r: Option<(nat, nat)>)
    requires bs != []
    ensures r.Some? ==> 1 <= r.value.1 <= |bs|
  {
    var b := bs[0];
    if 0x40 <= b < 0x80 then Some((b - 0x40, 1))
    else if b == 0x02 && |bs| >= 2 then Some((bs[1], 2))
    else if b == 0x03 && |bs| >= 3 then Some((FromLE(bs[1..3]), 3))
    else if b == 0x04 && |bs| >= 5 then Some((FromLE(bs[1..5]), 5))
    else None
  }

  /** The instruction stream as an unwinder reads it, from a location. */
  function DecodeInstructions(bs: seq<byte>, loc: nat): Option<seq<CfiEvent>>
    decreases |bs|
  {
    if bs == [] then Some([])
    else
      var step := AdvanceStep(bs);
      if step.Some? then DecodeInstructions(bs[step.value.1..], loc + step.value.0)
      else
        var op := DecodeOp(bs);
        if op.None? || !IsU64(loc) then None
        else
          var rest := DecodeInstructions(bs[op.value.1..], loc);
          if rest.None? then None else Some([CfiEvent(loc, op.value.0)] + rest.value)
  }

  /** How far a sequence of nothing but advances goes. */
  function AdvanceSum(bs: seq<byte>): Option<nat>
    decreases |bs|
  {
    if bs == [] then Some(0)
    else
      var step := AdvanceStep(bs);
      if step.None? then None
      else
        var rest := AdvanceSum(bs[step.value.1..]);
        if rest.None? then None else Some(step.value.0 + rest.value)
  }

  /** One operation other than an advance, and its length. */
  function DecodeOp(bs: seq<byte>): (r: Option<(CfiOp, nat)>)
    requires bs != []
    ensures r.Some? ==> 1 <= r.value.1 <= |bs|
  {
    var b := bs[0];
    if b >= 0xC0 then (if b - 0xC0 < 32 then Some((Restore(b - 0xC0), 1)) else None)
    else if b >= 0x80 then DecodeSaved(b - 0x80, DecodeUleb(bs[1..]))
    else if b == 0x0C then DecodeDefCfa(bs)
    else if b == 0x0D then DecodeRegister(DecodeUleb(bs[1..]))
    else if b == 0x0E then DecodeOffset(DecodeUleb(bs[1..]))
    else None
  }

  function DecodeSaved(register: nat, n: Option<(nat, nat)>): (r: Option<(CfiOp, nat)>)
    ensures r.Some? ==> n.Some? && r.value.1 == 1 + n.value.1
  {
    if n.None? || register >= 32 || n.value.0 > U64_MAX / 8 then None else Some((Offset(register, n.value.0 * 8), 1 + n.value.1))
  }

  function DecodeRegister(n: Option<(nat, nat)>): (r: Option<(CfiOp, nat)>)
    ensures r.Some? ==> n.Some? && r.value.1 == 1 + n.value.1
  {
    if n.None? || n.value.0 >= 32 then None else Some((DefCfaRegister(n.value.0), 1 + n.value.1))
  }

  function DecodeOffset(n: Option<(nat, nat)>): (r: Option<(CfiOp, nat)>)
    ensures r.Some? ==> n.Some? && r.value.1 == 1 + n.value.1
  {
    if n.None? || n.value.0 > U64_MAX then None else Some((DefCfaOffset(n.value.0), 1 + n.value.1))
  }

  function DecodeDefCfa(bs: seq<byte>): (r: Option<(CfiOp, nat)>)
    requires bs != []
    ensures r.Some? ==> 1 <= r.value.1 <= |bs|
  {
    var reg := DecodeUleb(bs[1..]);
    if reg.None? || reg.value.0 >= 32 then None
    else
      var off := DecodeUleb(bs[1 + reg.value.1..]);
      if off.None? || off.value.0 > U64_MAX then None
      else Some((DefCfa(reg.value.0, off.value.0), 1 + reg.value.1 + off.value.1))
  }

  /** An operation byte is not an advance, and decodes to the operation whatever follows. */
  ghost predicate OpDecodes(op: CfiOp, rest: seq<byte>) {
    && EncodeOp(op).Ok? && EncodeOp(op).value != []
    && DecodeOp(EncodeOp(op).value + rest) == Some((op, |EncodeOp(op).value|))
    && var b := EncodeOp(op).value[0]; !(0x40 <= b < 0x80) && b != 0x02 && b != 0x03 && b != 0x04
  }

  lemma DefCfaRoundTrip(register: Reg, offset: u64, rest: seq<byte>)
    ensures OpDecodes(DefCfa(register, offset), rest)
  {
    hide Uleb, DecodeUleb;
    var bs := [0x0C] + Uleb(register) + Uleb(offset) + rest;
    UlebRoundTrip(register, Uleb(offset) + rest);
    UlebRoundTrip(offset, rest);
    assert bs[1..] == Uleb(register) + (Uleb(offset) + rest);
    assert bs[1 + |Uleb(register)|..] == Uleb(offset) + rest;
  }

  lemma OpRoundTrip(op: CfiOp, rest: seq<byte>)
    requires EncodeOp(op).Ok?
    ensures OpDecodes(op, rest)
  {
    hide Uleb, DecodeUleb;
    var bs := EncodeOp(op).value + rest;
    match op
    case DefCfa(register, offset) => DefCfaRoundTrip(register, offset, rest);
    case DefCfaRegister(register) =>
      UlebRoundTrip(register, rest);
      assert bs[1..] == Uleb(register) + rest;
    case DefCfaOffset(offset) =>
      UlebRoundTrip(offset, rest);
      assert bs[1..] == Uleb(offset) + rest;
    case Offset(register, offset) =>
      UlebRoundTrip(offset / 8, rest);
      assert bs[1..] == Uleb(offset / 8) + rest;
    case Restore(register) =>
      assert bs[0] == 0xC0 + register;
  }

  lemma AdvanceSums(delta: nat)
    requires AdvanceLoc(delta).Ok?
    ensures AdvanceSum(AdvanceLoc(delta).value) == Some(delta)
    ensures delta > 0 ==> AdvanceStep(AdvanceLoc(delta).value) == Some((delta, |AdvanceLoc(delta).value|))
  {
    if delta > 0 {
      var bs := AdvanceLoc(delta).value;
      LocSteps(delta);
      assert bs[|bs|..] == [];
    }
  }

  lemma LocSteps(delta: nat)
    requires delta > 0 && AdvanceLoc(delta).Ok?
    ensures AdvanceLoc(delta).value != [] && AdvanceStep(AdvanceLoc(delta).value) == Some((delta, |AdvanceLoc(delta).value|))
  {
    hide LE, FromLE, Pow256;
    var bs := AdvanceLoc(delta).value;
    Pow256Values();
    if 0xFF < delta <= 0xFFFF {
      assert bs[1..3] == LE(delta, 2);
      FieldRoundTrip(delta, 2);
    } else if 0xFFFF < delta {
      assert bs[1..5] == LE(delta, 4);
      FieldRoundTrip(delta, 4);
    }
  }

  lemma StepKept(bs: seq<byte>, rest: seq<byte>)
    requires bs != [] && AdvanceStep(bs).Some?
    ensures AdvanceStep(bs + rest) == AdvanceStep(bs)
  {
    var whole := bs + rest;
    assert whole[0] == bs[0];
    if |bs| >= 3 {
      assert whole[1..3] == bs[1..3];
    }
    if |bs| >= 5 {
      assert whole[1..5] == bs[1..5];
    }
  }

  /** Advances move the location by their sum, whatever follows. */
  lemma DecodeAdvances(bs: seq<byte>, loc: nat)
    requires bs != [] && AdvanceStep(bs).Some?
    ensures var (delta, len) := AdvanceStep(bs).value; DecodeInstructions(bs, loc) == DecodeInstructions(bs[len..], loc + delta)
  {
    hide AdvanceStep, DecodeOp;
  }

  lemma {:induction false} AdvancesDecode(bs: seq<byte>, rest: seq<byte>, loc: nat)
    requires AdvanceSum(bs).Some?
    ensures DecodeInstructions(bs + rest, loc) == DecodeInstructions(rest, loc + AdvanceSum(bs).value)
    decreases |bs|
  {
    hide AdvanceStep, DecodeOp, DecodeInstructions;
    if bs == [] {
      assert bs + rest == rest;
    } else {
      StepKept(bs, rest);
      var (delta, len) := AdvanceStep(bs).value;
      AdvancesDecode(bs[len..], rest, loc + delta);
      assert (bs + rest)[len..] == bs[len..] + rest;
      DecodeAdvances(bs + rest, loc);
    }
  }

  lemma AdvanceRoundTrip(delta: nat, rest: seq<byte>, loc: nat)
    requires AdvanceLoc(delta).Ok?
    ensures DecodeInstructions(AdvanceLoc(delta).value + rest, loc) == DecodeInstructions(rest, loc + delta)
  {
    hide AdvanceLoc, DecodeInstructions, AdvanceSum;
    AdvanceSums(delta);
    AdvancesDecode(AdvanceLoc(delta).value, rest, loc);
  }

  /** The furthest that n bytes of advances reach, for n below the longest form. */
  function Furthest(n: nat): nat
    requires n < 5
  {
    match n
    case 0 => 0
    case 1 => 0x3F
    case 2 => 0xFF
    case 3 => 0xFFFF
    case 4 => 0xFFFF + 0x3F
  }

  lemma StepBound(bs: seq<byte>)
    requires 0 < |bs| < 5 && AdvanceStep(bs).Some?
    ensures AdvanceStep(bs).value.0 <= Furthest(AdvanceStep(bs).value.1) && AdvanceStep(bs).value.1 < 4
  {
    if |bs| >= 3 {
      Pow256Values();
      FromLEBound(bs[1..3]);
    }
  }

  lemma {:induction false} AdvanceBound(bs: seq<byte>)
    requires |bs| < 5 && AdvanceSum(bs).Some?
    ensures AdvanceSum(bs).value <= Furthest(|bs|)
    decreases |bs|
  {
    hide AdvanceStep;
    if bs != [] {
      StepBound(bs);
      AdvanceBound(bs[AdvanceStep(bs).value.1..]);
    }
  }

  /** No advances that go as far are shorter. */
  ghost predicate ShortestAdvance(delta: nat, n: nat) {
    forall bs: seq<byte> :: AdvanceSum(bs) == Some(delta) ==> n <= |bs|
  }

  /** The one-byte form may follow the two-byte operand form. */
  lemma TwoStepAdvance(delta: nat)
    requires 0xFFFF < delta <= 0xFFFF + 0x3F
    ensures exists bs: seq<byte> :: AdvanceSum(bs) == Some(delta) && |bs| == 4
  {
    hide AdvanceLoc;
    var last: seq<byte> := [0x40 + (delta - 0xFFFF)];
    var bs := [0x03] + LE(0xFFFF, 2) + last;
    Pow256Values();
    FieldRoundTrip(0xFFFF, 2);
    assert bs[1..3] == LE(0xFFFF, 2) && bs[3..] == last;
    assert last[1..] == [];
    assert AdvanceSum(last) == Some(delta - 0xFFFF);
    assert AdvanceSum(bs) == Some(delta);
  }

  /**
    The chosen form is the shortest way to advance by the delta, except just above the two-byte operand,
    where two instructions are one byte shorter.
   */
  lemma AdvanceShortest(delta: nat)
    requires AdvanceLoc(delta).Ok?
    ensures ShortestAdvance(delta, |AdvanceLoc(delta).value|) <==> !(0xFFFF < delta <= 0xFFFF + 0x3F)
  {
    hide AdvanceSum;
    if 0xFFFF < delta <= 0xFFFF + 0x3F {
      TwoStepAdvance(delta);
    } else {
      forall bs: seq<byte> | AdvanceSum(bs) == Some(delta) ensures |AdvanceLoc(delta).value| <= |bs| {
        if |bs| < 5 {
          AdvanceBound(bs);
        }
      }
    }
  }

  /** No other single advance instruction that goes as far is shorter. */
  lemma StepShortest(delta: nat, bs: seq<byte>)
    requires delta > 0 && AdvanceLoc(delta).Ok? && bs != [] && AdvanceStep(bs) == Some((delta, |bs|))
    ensures |AdvanceLoc(delta).value| <= |bs|
  {
    hide AdvanceStep;
    if |bs| < 5 {
      StepBound(bs);
    }
  }

  function Prepend(events: seq<CfiEvent>, rest: Option<seq<CfiEvent>>): Option<seq<CfiEvent>> {
    if rest.None? then None else Some(events + rest.value)
  }

  /** One event written and read back, whatever follows. */
  lemma EventDecodes(e: CfiEvent, from: nat, rest: seq<byte>)
    requires from <= e.codeOffset && AdvanceLoc(e.codeOffset - from).Ok? && EncodeOp(e.op).Ok?
    ensures DecodeInstructions(AdvanceLoc(e.codeOffset - from).value + EncodeOp(e.op).value + rest, from)
            == Prepend([e], DecodeInstructions(rest, e.codeOffset))
  {
    hide AdvanceLoc, EncodeOp, DecodeOp;
    var advance, op := AdvanceLoc(e.codeOffset - from).value, EncodeOp(e.op).value;
    AdvanceRoundTrip(e.codeOffset - from, op + rest, from);
    assert advance + op + rest == advance + (op + rest);
    OpRoundTrip(e.op, rest);
    assert (op + rest)[|op|..] == rest && (op + rest)[0] == op[0];
    assert IsU64(e.codeOffset);
  }

  lemma {:induction false} EventsDecode(events: seq<CfiEvent>, rest: seq<byte>)
    requires EncodeEvents(events).Ok?
    ensures DecodeInstructions(EncodeEvents(events).value + rest, 0) == Prepend(events, DecodeInstructions(rest, Reached(events)))
  {
    hide AdvanceLoc, EncodeOp, DecodeInstructions;
    if events == [] {
      assert EncodeEvents(events).value + rest == rest;
      if DecodeInstructions(rest, 0).Some? {
        assert [] + DecodeInstructions(rest, 0).value == DecodeInstructions(rest, 0).value;
      }
    } else {
      var last := |events| - 1;
      var e, from := events[last], Reached(events[..last]);
      var advance, op := AdvanceLoc(e.codeOffset - from).value, EncodeOp(e.op).value;
      var before := EncodeEvents(events[..last]).value;
      assert EncodeEvents(events).value + rest == before + (advance + op + rest);
      EventsDecode(events[..last], advance + op + rest);
      EventDecodes(e, from, rest);
      if DecodeInstructions(rest, e.codeOffset).Some? {
        var tail := DecodeInstructions(rest, e.codeOffset).value;
        assert events[..last] + ([e] + tail) == events + tail;
      }
    }
  }

  /** Decoding the written instructions gives back exactly the recorded events at their offsets. */
  lemma EventsRoundTrip(events: seq<CfiEvent>)
    requires EncodeEvents(events).Ok?
    ensures DecodeInstructions(EncodeEvents(events).value, 0) == Some(events)
  {
    var bs := EncodeEvents(events).value;
    EventsDecode(events, []);
    assert bs + [] == bs && events + [] == events;
  }

  /** What the writer can express: no step back, no step over 2^32 - 1, save slots that are positive multiples of 8. */
  predicate Encodable(events: seq<CfiEvent>) {
    forall i :: 0 <= i < |events| ==> EventEncodable(events[i], OffsetBefore(events, i))
  }

  function OffsetBefore(events: seq<CfiEvent>, i: nat): nat
    requires i < |events|
  {
    if i == 0 then 0 else events[i - 1].codeOffset
  }

  predicate EventEncodable(e: CfiEvent, from: nat) {
    && 0 <= e.codeOffset - from <= U32_MAX
    && (e.op.Offset? ==> e.op.offset >= 8 && e.op.offset % 8 == 0)
  }

  lemma EncodableSnoc(events: seq<CfiEvent>)
    requires events != []
    ensures Encodable(events) <==>
              Encodable(events[..|events| - 1]) && EventEncodable(events[|events| - 1], Reached(events[..|events| - 1]))
  {
    hide EventEncodable;
    var last := |events| - 1;
    forall i | 0 <= i < last ensures OffsetBefore(events[..last], i) == OffsetBefore(events, i) && events[..last][i] == events[i] {}
    assert OffsetBefore(events, last) == Reached(events[..last]);
    if Encodable(events) {
      assert EventEncodable(events[last], OffsetBefore(events, last));
      forall i | 0 <= i < last ensures EventEncodable(events[..last][i], OffsetBefore(events[..last], i)) {
        assert EventEncodable(events[i], OffsetBefore(events, i));
      }
    } else if Encodable(events[..last]) && EventEncodable(events[last], Reached(events[..last])) {
      forall i | 0 <= i < |events| ensures EventEncodable(events[i], OffsetBefore(events, i)) {
        if i < last {
          assert EventEncodable(events[..last][i], OffsetBefore(events[..last], i));
        }
      }
    }
  }

  lemma StepEncodable(e: CfiEvent, from: nat)
    ensures EventEncodable(e, from) <==> from <= e.codeOffset && AdvanceLoc(e.codeOffset - from).Ok? && EncodeOp(e.op).Ok?
  {
    hide Uleb, LE;
  }

  /** Encoding succeeds for exactly the encodable event lists. */
  lemma {:induction false} EncodableExactly(events: seq<CfiEvent>)
    ensures EncodeEvents(events).Ok? <==> Encodable(events)
  {
    hide EventEncodable, AdvanceLoc, EncodeOp, Encodable;
    if events != [] {
      var last := |events| - 1;
      EncodableExactly(events[..last]);
      EncodableSnoc(events);
      StepEncodable(events[last], Reached(events[..last]));
    } else {
      NoneEncodable();
    }
  }

  lemma NoneEncodable()
    ensures Encodable([])
  {
  }

  // ---- the record of one procedure ----------------------------------------------------------------

  /** Appending advances by exactly `delta`, in one instruction at most, and no single instruction does in fewer bytes. */
  ghost predicate Advances(buf: seq<byte>, out: seq<byte>, delta: nat) {
    && buf <= out && AdvanceSum(out[|buf|..]) == Some(delta)
    && (delta == 0 ==> out == buf)
    && (delta > 0 ==> forall bs: seq<byte> :: bs != [] && AdvanceStep(bs) == Some((delta, |bs|)) ==> |out| - |buf| <= |bs|)
  }

  lemma AppendedAdvances(buf: seq<byte>, delta: nat)
    requires AdvanceLoc(delta).Ok?
    ensures Advances(buf, buf + AdvanceLoc(delta).value, delta)
  {
    hide AdvanceSum, AdvanceStep;
    var advance := AdvanceLoc(delta).value;
    assert (buf + advance)[|buf|..] == advance;
    AdvanceSums(delta);
    forall bs: seq<byte> | delta > 0 && bs != [] && AdvanceStep(bs) == Some((delta, |bs|)) ensures |advance| <= |bs| {
      StepShortest(delta, bs);
    }
  }

  method EmitAdvanceLoc(buf: seq<byte>, delta: nat) returns (r: Result<seq<byte>, CfiError>)
    ensures r.Ok? <==> delta <= U32_MAX
    ensures r.Ok? ==> Advances(buf, r.value, delta)
    ensures r == var a := AdvanceLoc(delta); if a.Ok? then Ok(buf + a.value) else Err(AdvanceTooFar)
  {
    hide Advances;
    if delta <= U32_MAX {
      AppendedAdvances(buf, delta);
    }
    if delta == 0 {
      r := Ok(buf);
      assert buf + [] == buf;
    } else if delta <= 0x3F {
      r := Ok(buf + [0x40 + delta]);
    } else if delta <= 0xFF {
      r := Ok(buf + [0x02] + [delta]);
      assert buf + [0x02] + [delta] == buf + [0x02, delta];
    } else if delta <= 0xFFFF {
      r := Ok(buf + [0x03] + LE(delta, 2));
      assert buf + [0x03] + LE(delta, 2) == buf + ([0x03] + LE(delta, 2));
    } else if delta <= U32_MAX {
      r := Ok(buf + [0x04] + LE(delta, 4));
      assert buf + [0x04] + LE(delta, 4) == buf + ([0x04] + LE(delta, 4));
    } else {
      r := Err(AdvanceTooFar);
    }
  }

  /** What was appended decodes to the operation, whatever follows. */
  ghost predicate AppendsOp(buf: seq<byte>, out: seq<byte>, op: CfiOp) {
    && buf < out
    && forall rest: seq<byte> :: DecodeOp(out[|buf|..] + rest) == Some((op, |out| - |buf|))
  }

  lemma AppendedDecodes(buf: seq<byte>, op: CfiOp)
    requires EncodeOp(op).Ok?
    ensures AppendsOp(buf, buf + EncodeOp(op).value, op)
  {
    hide DecodeOp, EncodeOp;
    var bs := EncodeOp(op).value;
    assert (buf + bs)[|buf|..] == bs;
    forall rest: seq<byte> ensures bs != [] && DecodeOp(bs + rest) == Some((op, |bs|)) {
      OpRoundTrip(op, rest);
    }
    OpRoundTrip(op, []);
  }

  /** Only a save slot that is no positive multiple of eight is refused. */
  method EmitCfiOp(buf: seq<byte>, op: CfiOp) returns (r: Result<seq<byte>, CfiError>)
    ensures r.Ok? <==> (op.Offset? ==> op.offset >= 8 && op.offset % 8 == 0)
    ensures r.Ok? ==> AppendsOp(buf, r.value, op)
    ensures r == var o := EncodeOp(op); if o.Ok? then Ok(buf + o.value) else Err(NotRepresentable)
  {
    hide Uleb, AppendsOp;
    if EncodeOp(op).Ok? {
      AppendedDecodes(buf, op);
    }
    match op {
      case DefCfa(register, offset) =>
        var bs := EncodeUleb128(buf + [0x0C], register);
        bs := EncodeUleb128(bs, offset);
        assert bs == buf + ([0x0C] + Uleb(register) + Uleb(offset));
        r := Ok(bs);
      case DefCfaRegister(register) =>
        var bs := EncodeUleb128(buf + [0x0D], register);
        assert bs == buf + ([0x0D] + Uleb(register));
        r := Ok(bs);
      case DefCfaOffset(offset) =>
        var bs := EncodeUleb128(buf + [0x0E], offset);
        assert bs == buf + ([0x0E] + Uleb(offset));
        r := Ok(bs);
      case Offset(register, offset) =>
        var scaled := offset / 8;
        if scaled == 0 || scaled * 8 != offset {
          return Err(NotRepresentable);
        }
        var bs := EncodeUleb128(buf + [0x80 + register], scaled);
        assert bs == buf + ([0x80 + register] + Uleb(scaled));
        r := Ok(bs);
      case Restore(register) =>
        r := Ok(buf + [0xC0 + register]);
    }
  }

  lemma {:induction false} EncodeStops(events: seq<CfiEvent>, i: nat)
    requires i <= |events| && EncodeEvents(events[..i]).Err?
    ensures EncodeEvents(events) == EncodeEvents(events[..i])
  {
    if i == |events| {
      assert events[..i] == events;
    } else {
      assert events[..|events| - 1][..i] == events[..i];
      EncodeStops(events[..|events| - 1], i);
    }
  }

  function EncodeNext(before: seq<byte>, from: nat, e: CfiEvent): Result<seq<byte>, CfiError> {
    if e.codeOffset < from then Err(OffsetsRegress)
    else if AdvanceLoc(e.codeOffset - from).Err? then Err(AdvanceTooFar)
    else if EncodeOp(e.op).Err? then Err(NotRepresentable)
    else Ok(before + AdvanceLoc(e.codeOffset - from).value + EncodeOp(e.op).value)
  }

  lemma EncodeSnoc(before: seq<CfiEvent>, e: CfiEvent)
    requires EncodeEvents(before).Ok?
    ensures EncodeEvents(before + [e]) == EncodeNext(EncodeEvents(before).value, Reached(before), e)
    ensures Reached(before + [e]) == e.codeOffset
  {
    hide AdvanceLoc, EncodeOp;
    assert (before + [e])[..|before|] == before;
    AdvanceError(e.codeOffset - Reached(before));
    OpError(e.op);
  }

  lemma EncodeStep(events: seq<CfiEvent>, i: nat)
    requires i < |events| && EncodeEvents(events[..i]).Ok?
    ensures EncodeEvents(events[..i + 1]) == EncodeNext(EncodeEvents(events[..i]).value, Reached(events[..i]), events[i])
    ensures Reached(events[..i + 1]) == events[i].codeOffset
    ensures EncodeEvents(events[..i + 1]).Err? ==> EncodeEvents(events) == EncodeEvents(events[..i + 1])
  {
    hide EncodeNext, EncodeEvents, Reached;
    assert events[..i + 1] == events[..i] + [events[i]];
    EncodeSnoc(events[..i], events[i]);
    if EncodeEvents(events[..i + 1]).Err? {
      EncodeStops(events, i + 1);
    }
  }

  /** The instruction bytes of a finished procedure. */
  method EhFrameInstructions(events: seq<CfiEvent>) returns (r: Result<seq<byte>, CfiError>)
    ensures r == EncodeEvents(events)
    ensures r.Ok? ==> DecodeInstructions(r.value, 0) == Some(events)
    ensures r.Ok? <==> Encodable(events)
  {
    hide AdvanceLoc, EncodeOp, DecodeInstructions, Encodable, Reached;
    EncodableExactly(events);
    var instructions: seq<byte> := [];
    var previous: nat := 0;
    var i := 0;
    assert Reached(events[..0]) == 0 by { NothingReached(); }
    while i < |events|
      invariant 0 <= i <= |events| && previous == Reached(events[..i])
      invariant EncodeEvents(events[..i]) == Ok(instructions)
    {
      EncodeStep(events, i);
      if events[i].codeOffset < previous {
        return Err(OffsetsRegress);
      }
      var advanced := EmitAdvanceLoc(instructions, events[i].codeOffset - previous);
      if advanced.Err? {
        return Err(advanced.error);
      }
      var emitted := EmitCfiOp(advanced.value, events[i].op);
      if emitted.Err? {
        return Err(emitted.error);
      }
      instructions := emitted.value;
      previous := events[i].codeOffset;
      i := i + 1;
    }
    assert events[..i] == events;
    EventsRoundTrip(events);
    return Ok(instructions);
  }

  lemma NothingReached()
    ensures Reached([]) == 0
  {
  }

  lemma AdvanceError(delta: int)
    ensures delta >= 0 && AdvanceLoc(delta).Err? ==> AdvanceLoc(delta).error == AdvanceTooFar
  {
  }

  lemma OpError(op: CfiOp)
    ensures EncodeOp(op).Err? ==> EncodeOp(op).error == NotRepresentable
  {
  }
}
