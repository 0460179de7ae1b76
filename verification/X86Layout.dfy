/**
  x86-64 section streams and branch relaxation.

  A section is a stream of items. Every jump to a label of the same section starts as rel8
  and grows to rel32 when its displacement does not fit; sizes are recomputed until nothing
  grows. `Relaxed` is the specification, `Relax` the loop, and the lemmas below it say that
  the loop stops, that its sizing is safe, and when that sizing is the least one.
 */
module X86Layout {
  import opened Words

  type CondCode = c: int | 0 <= c < 16

  datatype BranchKind = Jmp | Jcc(cc: CondCode)

  /** A relocation the encoded bytes need; `offset` counts from the start of its item or section. */
  datatype Reloc = Reloc(offset: nat, sym: string, rType: nat, addend: int)

  datatype DataAtom = Dot | Sym(name: string)

  datatype DataItem =
    | Num(value: int)
    | SymRef(name: string, addend: int)
    | Difference(minuend: DataAtom, subtrahend: DataAtom, addend: int)

  datatype Item =
    | Bytes(bytes: seq<byte>, relocs: seq<Reloc>)
    | Data(width: nat, values: seq<DataItem>)
    | Zero(count: nat)
    | Fill(size: nat, fillByte: byte)
    | Branch(kind: BranchKind, target: string)
    | Align(pow: nat, fill: Option<byte>, maxSkip: Option<nat>)
    | SizeDot(sym: string)

  datatype SecBuild = SecBuild(
    items: seq<Item>,
    labels: map<string, nat>,      // label -> index of the item it precedes
    labelOrder: seq<string>,
    maxAlign: nat,
    shType: nat,
    shFlags: nat)

  predicate WellFormed(sb: SecBuild) {
    && (forall l <- sb.labels :: sb.labels[l] <= |sb.items|)
    && (forall k :: 0 <= k < |sb.labelOrder| ==> sb.labelOrder[k] in sb.labels)
  }

  datatype LayoutError =
    | SizeOverflow(item: nat)
    | AlignmentTooLarge(item: nat)

  // ---- sizes and offsets under a given sizing ---------------------------

  function BranchLen(kind: BranchKind, isLong: bool): nat {
    match kind
    case Jmp => if isLong then 5 else 2
    case Jcc(_) => if isLong then 6 else 2
  }

  predicate IsLocalBranch(sb: SecBuild, weak: set<string>, target: string) {
    target in sb.labels && target !in weak
  }

  /** Padding to the next multiple of 2^pow, or none at all when it would exceed the maximum skip. */
  function AlignPad(pos: nat, pow: nat, maxSkip: Option<nat>): (pad: nat)
    ensures pad == 0 || (pos + pad) % Pow2(pow) == 0
    ensures maxSkip.None? ==> (pos + pad) % Pow2(pow) == 0
    ensures pad < Pow2(pow)
    ensures maxSkip.Some? ==> pad <= maxSkip.value
  {
    var alignment := Pow2(pow);
    var remainder := pos % alignment;
    var pad := if remainder == 0 then 0 else alignment - remainder;
    assert remainder != 0 ==> (pos + pad) % alignment == 0 by {
      assert pos == (pos / alignment) * alignment + remainder;
      if remainder != 0 {
        assert pos + pad == (pos / alignment + 1) * alignment + 0;
        DivModUnique(pos + pad, alignment, pos / alignment + 1, 0);
      }
    }
    if maxSkip.Some? && pad > maxSkip.value then 0 else pad
  }

  /** When some padding within the maximum skip reaches a multiple, the padding chosen does, and is the least. */
  lemma PadReaches(pos: nat, pow: nat, maxSkip: Option<nat>, k: nat)
    requires (pos + k) % Pow2(pow) == 0 && (maxSkip.Some? ==> k <= maxSkip.value)
    ensures (pos + AlignPad(pos, pow, maxSkip)) % Pow2(pow) == 0 && AlignPad(pos, pow, maxSkip) <= k
  {
    hide Pow2;
    var alignment := Pow2(pow);
    var q, remainder := pos / alignment, pos % alignment;
    assert pos == q * alignment + remainder;
    if remainder == 0 {
      assert pos + 0 == pos;
    } else if k < alignment - remainder {
      DivModUnique(pos + k, alignment, q, remainder + k);
    } else {
      DivModUnique(pos + (alignment - remainder), alignment, q + 1, 0);
    }
  }

  /** Padding keeps positions in order: what starts further on never ends earlier. */
  lemma PadMonotone(p: nat, q: nat, pow: nat, maxSkip: Option<nat>)
    requires p <= q
    ensures p + AlignPad(p, pow, maxSkip) <= q + AlignPad(q, pow, maxSkip)
  {
    hide Pow2;
    var alignment := Pow2(pow);
    var k, remainder := p / alignment, p % alignment;
    assert p == k * alignment + remainder;
    if remainder != 0 && q < p + (alignment - remainder) {
      DivModUnique(q, alignment, k, q - k * alignment);
    }
  }

  function ItemSize(sb: SecBuild, weak: set<string>, long: seq<bool>, i: nat, pos: nat): nat
    requires |long| == |sb.items| && i < |sb.items|
  {
    match sb.items[i]
    case Bytes(b, _) => |b|
    case Data(width, values) => width * |values|
    case Zero(n) => n
    case Fill(size, _) => size
    case Branch(kind, target) => BranchLen(kind, !IsLocalBranch(sb, weak, target) || long[i])
    case Align(pow, _, maxSkip) => AlignPad(pos, pow, maxSkip)
    case SizeDot(_) => 0
  }

  /** Section offset of item i; `Off` at the item count is the section size. */
  function Off(sb: SecBuild, weak: set<string>, long: seq<bool>, i: nat): nat
    requires |long| == |sb.items| && i <= |sb.items|
  {
    if i == 0 then 0
    else
      var pos := Off(sb, weak, long, i - 1);
      pos + ItemSize(sb, weak, long, i - 1, pos)
  }

  /** The error the sizing walk meets at item i, if any. */
  function ItemError(sb: SecBuild, weak: set<string>, long: seq<bool>, i: nat): Option<LayoutError>
    requires |long| == |sb.items| && i < |sb.items|
  {
    if sb.items[i].Align? && sb.items[i].pow >= 64 then Some(AlignmentTooLarge(i))
    else if Off(sb, weak, long, i + 1) > U64_MAX then Some(SizeOverflow(i))
    else None
  }

  /** First error at or after item i. */
  function WalkError(sb: SecBuild, weak: set<string>, long: seq<bool>, i: nat): (e: Option<LayoutError>)
    requires |long| == |sb.items| && i <= |sb.items|
    decreases |sb.items| - i
  {
    if i == |sb.items| then None
    else
      var here := ItemError(sb, weak, long, i);
      if here.Some? then here else WalkError(sb, weak, long, i + 1)
  }

  lemma {:induction false} WalkOk(sb: SecBuild, weak: set<string>, long: seq<bool>, from: nat, i: nat)
    requires |long| == |sb.items| && from <= i < |sb.items|
    requires WalkError(sb, weak, long, from) == None
    ensures ItemError(sb, weak, long, i) == None
    ensures Off(sb, weak, long, i + 1) <= U64_MAX
    decreases i - from
  {
    if from < i {
      WalkOk(sb, weak, long, from + 1, i);
    }
  }

  lemma {:induction false} NoErrors(sb: SecBuild, weak: set<string>, long: seq<bool>, from: nat)
    requires |long| == |sb.items| && from <= |sb.items|
    requires forall i :: from <= i < |sb.items| ==> ItemError(sb, weak, long, i) == None
    ensures WalkError(sb, weak, long, from) == None
    decreases |sb.items| - from
  {
    if from < |sb.items| {
      NoErrors(sb, weak, long, from + 1);
    }
  }

  lemma {:induction false} OffMonotone(sb: SecBuild, weak: set<string>, long: seq<bool>, i: nat, j: nat)
    requires |long| == |sb.items| && i <= j <= |sb.items|
    ensures Off(sb, weak, long, i) <= Off(sb, weak, long, j)
    decreases j - i
  {
    if i < j {
      OffMonotone(sb, weak, long, i, j - 1);
    }
  }

  // ---- growing -----------------------------------------------------------

  predicate IsRelaxable(sb: SecBuild, weak: set<string>, i: nat)
    requires i < |sb.items|
  {
    sb.items[i].Branch? && IsLocalBranch(sb, weak, sb.items[i].target)
  }

  /** Displacement the branch at item i would need in its short form. */
  function ShortDisp(sb: SecBuild, weak: set<string>, long: seq<bool>, i: nat): int
    requires WellFormed(sb) && |long| == |sb.items| && i < |sb.items| && IsRelaxable(sb, weak, i)
  {
    var Branch(kind, target) := sb.items[i];
    Off(sb, weak, long, sb.labels[target]) - (Off(sb, weak, long, i) + BranchLen(kind, false))
  }

  predicate MustGrow(sb: SecBuild, weak: set<string>, long: seq<bool>, i: nat)
    requires WellFormed(sb) && |long| == |sb.items| && i < |sb.items|
  {
    !long[i] && IsRelaxable(sb, weak, i) && !IsI8(ShortDisp(sb, weak, long, i))
  }

  /** One round: every short branch whose displacement overflows becomes long. */
  function Grow(sb: SecBuild, weak: set<string>, long: seq<bool>): (next: seq<bool>)
    requires WellFormed(sb) && |long| == |sb.items|
    ensures |next| == |long|
    ensures forall i :: 0 <= i < |long| ==> next[i] == (long[i] || MustGrow(sb, weak, long, i))
  {
    seq(|long|, i requires 0 <= i < |long| => long[i] || MustGrow(sb, weak, long, i))
  }

  function CountShort(long: seq<bool>): nat {
    if long == [] then 0 else (if long[0] then 0 else 1) + CountShort(long[1..])
  }

  predicate Included(a: seq<bool>, b: seq<bool>) {
    |a| == |b| && forall i :: 0 <= i < |a| && a[i] ==> b[i]
  }

  lemma {:induction false} CountShortDrops(a: seq<bool>, b: seq<bool>)
    requires Included(a, b)
    ensures CountShort(b) <= CountShort(a)
    ensures a != b ==> CountShort(b) < CountShort(a)
  {
    if a != [] {
      assert Included(a[1..], b[1..]) by {
        forall i | 0 <= i < |a[1..]| && a[1..][i] ensures b[1..][i] { assert a[i + 1]; }
      }
      CountShortDrops(a[1..], b[1..]);
      assert a == [a[0]] + a[1..] && b == [b[0]] + b[1..];
    }
  }

  /** Each round that changes anything leaves strictly fewer short branches: the termination measure. */
  lemma GrowMakesProgress(sb: SecBuild, weak: set<string>, long: seq<bool>)
    requires WellFormed(sb) && |long| == |sb.items|
    ensures Included(long, Grow(sb, weak, long))
    ensures Grow(sb, weak, long) != long ==> CountShort(Grow(sb, weak, long)) < CountShort(long)
  {
    CountShortDrops(long, Grow(sb, weak, long));
  }

  /** The fixed point the relaxation loop computes from a given sizing. */
  function Relaxed(sb: SecBuild, weak: set<string>, long: seq<bool>): (r: Result<seq<bool>, LayoutError>)
    requires WellFormed(sb) && |long| == |sb.items|
    ensures r.Ok? ==> |r.value| == |sb.items|
    decreases CountShort(long)
  {
    var e := WalkError(sb, weak, long, 0);
    if e.Some? then Err(e.value)
    else
      var next := Grow(sb, weak, long);
      if next == long then Ok(long)
      else
        GrowMakesProgress(sb, weak, long);
        Relaxed(sb, weak, next)
  }

  /** How many rounds the loop makes. */
  function Rounds(sb: SecBuild, weak: set<string>, long: seq<bool>): nat
    requires WellFormed(sb) && |long| == |sb.items|
    decreases CountShort(long)
  {
    var next := Grow(sb, weak, long);
    if WalkError(sb, weak, long, 0).Some? || next == long then 1
    else
      GrowMakesProgress(sb, weak, long);
      1 + Rounds(sb, weak, next)
  }

  function AllShort(n: nat): (long: seq<bool>)
    ensures |long| == n
    ensures forall i :: 0 <= i < n ==> !long[i]
  {
    seq(n, _ => false)
  }

  // ---- the relaxation loop --------------------------------------------------

  lemma OffNext(sb: SecBuild, weak: set<string>, long: seq<bool>, i: nat)
    requires |long| == |sb.items| && i < |sb.items|
    ensures Off(sb, weak, long, i + 1) == Off(sb, weak, long, i) + ItemSize(sb, weak, long, i, Off(sb, weak, long, i))
    ensures WalkError(sb, weak, long, i)
            == if sb.items[i].Align? && sb.items[i].pow >= 64 then Some(AlignmentTooLarge(i))
               else if Off(sb, weak, long, i + 1) > U64_MAX then Some(SizeOverflow(i))
               else WalkError(sb, weak, long, i + 1)
  {
    hide ItemSize;
  }

  lemma WalkEnds(sb: SecBuild, weak: set<string>, long: seq<bool>)
    requires |long| == |sb.items|
    ensures Off(sb, weak, long, 0) == 0 && WalkError(sb, weak, long, |sb.items|) == None
  {
  }

  /** One sizing walk: all offsets, or the first overflow. */
  method ComputeOffsets(sb: SecBuild, weak: set<string>, long: seq<bool>) returns (r: Result<seq<nat>, LayoutError>)
    requires |long| == |sb.items|
    ensures r.Err? <==> WalkError(sb, weak, long, 0).Some?
    ensures r.Err? ==> WalkError(sb, weak, long, 0) == Some(r.error)
    ensures r.Ok? ==> |r.value| == |sb.items| + 1
    ensures r.Ok? ==> forall i :: 0 <= i <= |sb.items| ==> r.value[i] == Off(sb, weak, long, i)
  {
    hide ItemSize, Off, WalkError;
    var offsets: seq<nat> := [];
    var pos: nat := 0;
    var i := 0;
    WalkEnds(sb, weak, long);
    while i < |sb.items|
      invariant 0 <= i <= |sb.items| && |offsets| == i
      invariant pos == Off(sb, weak, long, i)
      invariant forall k :: 0 <= k < i ==> offsets[k] == Off(sb, weak, long, k)
      invariant WalkError(sb, weak, long, 0) == WalkError(sb, weak, long, i)
    {
      offsets := offsets + [pos];
      OffNext(sb, weak, long, i);
      if sb.items[i].Align? && sb.items[i].pow >= 64 {
        return Err(AlignmentTooLarge(i));
      }
      var size := ItemSize(sb, weak, long, i, pos);
      if pos + size > U64_MAX {
        return Err(SizeOverflow(i));
      }
      pos := pos + size;
      i := i + 1;
    }
    return Ok(offsets + [pos]);
  }

  /** What one round asks of a branch, in terms of the offsets of its sizing walk. */
  lemma GrowsHere(sb: SecBuild, weak: set<string>, long: seq<bool>, offsets: seq<nat>, i: nat)
    requires WellFormed(sb) && |long| == |sb.items| && i < |long| && |offsets| == |long| + 1
    requires forall k :: 0 <= k < |offsets| ==> offsets[k] == Off(sb, weak, long, k)
    ensures IsRelaxable(sb, weak, i) ==>
              var reach := offsets[sb.labels[sb.items[i].target]] - (offsets[i] + BranchLen(sb.items[i].kind, false));
              Grow(sb, weak, long)[i] == (long[i] || !IsI8(reach))
    ensures !IsRelaxable(sb, weak, i) ==> Grow(sb, weak, long)[i] == long[i]
  {
    hide Off;
  }

  /** The grow-only fixed point over the `long` flags. */
  method Relax(sb: SecBuild, weak: set<string>) returns (r: Result<seq<bool>, LayoutError>)
    requires WellFormed(sb)
    ensures r == Relaxed(sb, weak, AllShort(|sb.items|))
  {
    hide Off, WalkError, CountShort, Grow, MustGrow, IsI8, BranchLen;
    var n := |sb.items|;
    var long := new bool[n](_ => false);
    assert long[..] == AllShort(n);
    while true
      invariant fresh(long) && long.Length == n
      invariant Relaxed(sb, weak, long[..]) == Relaxed(sb, weak, AllShort(n))
      decreases CountShort(long[..])
    {
      ghost var before := long[..];
      var walk := ComputeOffsets(sb, weak, long[..]);
      if walk.Err? {
        return Err(walk.error);
      }
      var offsets := walk.value;
      var grew := false;
      var i := 0;
      while i < n
        invariant 0 <= i <= n && fresh(long)
        invariant forall k :: 0 <= k < i ==> long[k] == Grow(sb, weak, before)[k]
        invariant forall k :: i <= k < n ==> long[k] == before[k]
        invariant grew == exists k :: 0 <= k < i && before[k] != Grow(sb, weak, before)[k]
      {
        GrowsHere(sb, weak, before, offsets, i);
        match sb.items[i] {
          case Branch(kind, target) =>
            if !long[i] && IsLocalBranch(sb, weak, target) {
              var dest := offsets[sb.labels[target]];
              var end := offsets[i] + BranchLen(kind, false);
              if !IsI8(dest - end) {
                long[i] := true;
                grew := true;
                assert before[i] != Grow(sb, weak, before)[i];
              }
            }
          case _ =>
        }
        i := i + 1;
      }
      assert long[..] == Grow(sb, weak, before);
      if !grew {
        assert Grow(sb, weak, before) == before;
        return Ok(long[..]);
      }
      GrowMakesProgress(sb, weak, before);
    }
    assert false;
  }

  // ---- termination, safety ---------------------------------------------------

  /** The loop runs at most once more than there are relaxable branches. */
  function CountRelaxable(sb: SecBuild, weak: set<string>, long: seq<bool>, i: nat): nat
    requires |long| == |sb.items| && i <= |sb.items|
    decreases |sb.items| - i
  {
    if i == |sb.items| then 0
    else (if IsRelaxable(sb, weak, i) && !long[i] then 1 else 0) + CountRelaxable(sb, weak, long, i + 1)
  }

  lemma {:induction false} CountRelaxableDrops(sb: SecBuild, weak: set<string>, a: seq<bool>, b: seq<bool>, i: nat)
    requires |a| == |b| == |sb.items| && i <= |sb.items|
    requires Included(a, b)
    ensures CountRelaxable(sb, weak, b, i) <= CountRelaxable(sb, weak, a, i)
    ensures (exists k :: i <= k < |a| && IsRelaxable(sb, weak, k) && !a[k] && b[k])
            ==> CountRelaxable(sb, weak, b, i) < CountRelaxable(sb, weak, a, i)
    decreases |sb.items| - i
  {
    if i < |sb.items| {
      CountRelaxableDrops(sb, weak, a, b, i + 1);
    }
  }

  lemma {:induction false} RoundsBounded(sb: SecBuild, weak: set<string>, long: seq<bool>)
    requires WellFormed(sb) && |long| == |sb.items|
    ensures Rounds(sb, weak, long) <= 1 + CountRelaxable(sb, weak, long, 0)
    decreases CountShort(long)
  {
    var next := Grow(sb, weak, long);
    if !(WalkError(sb, weak, long, 0).Some? || next == long) {
      GrowMakesProgress(sb, weak, long);
      RoundsBounded(sb, weak, next);
      var k :| 0 <= k < |long| && next[k] != long[k];
      assert IsRelaxable(sb, weak, k) && !long[k] && next[k];
      CountRelaxableDrops(sb, weak, long, next, 0);
    }
  }

  /** A sizing a correct assembler may use: no overflow, and every short branch reaches its label. */
  ghost predicate ValidSizing(sb: SecBuild, weak: set<string>, long: seq<bool>)
    requires WellFormed(sb)
  {
    && |long| == |sb.items|
    && WalkError(sb, weak, long, 0) == None
    && forall i :: 0 <= i < |long| && IsRelaxable(sb, weak, i) && !long[i] ==> IsI8(ShortDisp(sb, weak, long, i))
  }

  /** Safety at exit: whatever sizing the loop returns is valid and only relaxable branches grew. */
  lemma {:induction false} RelaxedIsValid(sb: SecBuild, weak: set<string>, long: seq<bool>)
    requires WellFormed(sb) && |long| == |sb.items|
    ensures Relaxed(sb, weak, long).Ok? ==>
              var chosen := Relaxed(sb, weak, long).value;
              && ValidSizing(sb, weak, chosen)
              && Included(long, chosen)
              && forall i :: 0 <= i < |chosen| && chosen[i] && !long[i] ==> IsRelaxable(sb, weak, i)
    decreases CountShort(long)
  {
    var next := Grow(sb, weak, long);
    if WalkError(sb, weak, long, 0) == None && next != long {
      GrowMakesProgress(sb, weak, long);
      RelaxedIsValid(sb, weak, next);
    } else if WalkError(sb, weak, long, 0) == None {
      forall i | 0 <= i < |long| && IsRelaxable(sb, weak, i) && !long[i]
        ensures IsI8(ShortDisp(sb, weak, long, i))
      {
        assert next[i] == long[i];
      }
    }
  }

  // ---- least sizing -------------------------------------------------------------

  /** The most padding an alignment item can take. */
  function MaxPad(pow: nat, maxSkip: Option<nat>): nat {
    if maxSkip.Some? then Min(Pow2(pow) - 1, maxSkip.value) else Pow2(pow) - 1
  }

  /** The size of an item with every branch long and every padding full, or every branch short and no padding. */
  function ExtremeSize(sb: SecBuild, weak: set<string>, largest: bool, i: nat): nat
    requires i < |sb.items|
  {
    match sb.items[i]
    case Bytes(b, _) => |b|
    case Data(width, values) => width * |values|
    case Zero(n) => n
    case Fill(size, _) => size
    case Branch(kind, target) => BranchLen(kind, largest || !IsLocalBranch(sb, weak, target))
    case Align(pow, _, maxSkip) => if largest then MaxPad(pow, maxSkip) else 0
    case SizeDot(_) => 0
  }

  /** The items from lo up to hi, all at their largest or all at their smallest. */
  function ExtremeSpan(sb: SecBuild, weak: set<string>, largest: bool, lo: nat, hi: nat): nat
    requires lo <= hi <= |sb.items|
  {
    if lo == hi then 0 else ExtremeSpan(sb, weak, largest, lo, hi - 1) + ExtremeSize(sb, weak, largest, hi - 1)
  }

  lemma {:induction false} SpanBetweenExtremes(sb: SecBuild, weak: set<string>, long: seq<bool>, lo: nat, hi: nat)
    requires |long| == |sb.items| && lo <= hi <= |sb.items|
    ensures ExtremeSpan(sb, weak, false, lo, hi) <= Off(sb, weak, long, hi) - Off(sb, weak, long, lo)
    ensures Off(sb, weak, long, hi) - Off(sb, weak, long, lo) <= ExtremeSpan(sb, weak, true, lo, hi)
  {
    hide AlignPad;
    if lo < hi {
      SpanBetweenExtremes(sb, weak, long, lo, hi - 1);
    }
  }

  /** The items between a branch and its label: from `start` up to `end`. */
  function SpanStart(sb: SecBuild, i: nat): nat
    requires i < |sb.items| && sb.items[i].Branch? && sb.items[i].target in sb.labels
  {
    var dest := sb.labels[sb.items[i].target];
    if dest <= i then dest else i + 1
  }

  function SpanEnd(sb: SecBuild, i: nat): nat
    requires i < |sb.items| && sb.items[i].Branch? && sb.items[i].target in sb.labels
  {
    var dest := sb.labels[sb.items[i].target];
    if dest <= i then i else dest
  }

  /** The short form spans this many bytes: backwards it first jumps over itself. */
  predicate SpanFits(sb: SecBuild, i: nat, span: nat)
    requires i < |sb.items| && sb.items[i].Branch? && sb.items[i].target in sb.labels
  {
    if sb.labels[sb.items[i].target] <= i then span + BranchLen(sb.items[i].kind, false) <= 128 else span <= 127
  }

  predicate NoAlignBetween(sb: SecBuild, lo: nat, hi: nat)
    requires lo <= hi <= |sb.items|
  {
    forall k :: lo <= k < hi ==> !sb.items[k].Align?
  }

  /** Between the branch and its label stands no alignment item, or the branch fits however they all grow, or never does. */
  predicate SteadySpan(sb: SecBuild, weak: set<string>, i: nat)
    requires WellFormed(sb) && i < |sb.items| && IsRelaxable(sb, weak, i)
  {
    var lo, hi := SpanStart(sb, i), SpanEnd(sb, i);
    || NoAlignBetween(sb, lo, hi)
    || SpanFits(sb, i, ExtremeSpan(sb, weak, true, lo, hi))
    || !SpanFits(sb, i, ExtremeSpan(sb, weak, false, lo, hi))
  }

  predicate SteadySpans(sb: SecBuild, weak: set<string>)
    requires WellFormed(sb)
  {
    forall i :: 0 <= i < |sb.items| && IsRelaxable(sb, weak, i) ==> SteadySpan(sb, weak, i)
  }

  /** Between alignment items, growing branches never brings two positions closer. */
  lemma {:induction false} DistanceGrows(sb: SecBuild, weak: set<string>, a: seq<bool>, b: seq<bool>, i: nat, j: nat)
    requires |a| == |sb.items| && Included(a, b) && i <= j <= |sb.items| && NoAlignBetween(sb, i, j)
    ensures Off(sb, weak, a, j) - Off(sb, weak, a, i) <= Off(sb, weak, b, j) - Off(sb, weak, b, i)
    decreases j - i
  {
    if i < j {
      DistanceGrows(sb, weak, a, b, i, j - 1);
      assert !sb.items[j - 1].Align?;
    }
  }

  /** Growing branches moves no item forward, alignment items or not. */
  lemma {:induction false} OffsetGrows(sb: SecBuild, weak: set<string>, a: seq<bool>, b: seq<bool>, i: nat)
    requires |a| == |sb.items| && Included(a, b) && i <= |sb.items|
    ensures Off(sb, weak, a, i) <= Off(sb, weak, b, i)
  {
    hide AlignPad;
    if i > 0 {
      OffsetGrows(sb, weak, a, b, i - 1);
      if sb.items[i - 1].Align? {
        PadMonotone(Off(sb, weak, a, i - 1), Off(sb, weak, b, i - 1), sb.items[i - 1].pow, sb.items[i - 1].maxSkip);
      }
    }
  }

  /** Whether a short branch reaches depends on the bytes between it and its label only. */
  lemma ShortDispSpan(sb: SecBuild, weak: set<string>, long: seq<bool>, i: nat)
    requires WellFormed(sb) && |long| == |sb.items| && i < |long| && IsRelaxable(sb, weak, i) && !long[i]
    ensures Off(sb, weak, long, SpanStart(sb, i)) <= Off(sb, weak, long, SpanEnd(sb, i))
    ensures IsI8(ShortDisp(sb, weak, long, i))
            <==> SpanFits(sb, i, Off(sb, weak, long, SpanEnd(sb, i)) - Off(sb, weak, long, SpanStart(sb, i)))
  {
    OffMonotone(sb, weak, long, SpanStart(sb, i), SpanEnd(sb, i));
    assert Off(sb, weak, long, i + 1) == Off(sb, weak, long, i) + BranchLen(sb.items[i].kind, false);
  }

  /** A branch that is short and fits in a larger sizing also fits in every smaller one. */
  lemma FitsInSmaller(sb: SecBuild, weak: set<string>, a: seq<bool>, b: seq<bool>, i: nat)
    requires WellFormed(sb) && |a| == |sb.items| && Included(a, b)
    requires i < |a| && IsRelaxable(sb, weak, i) && SteadySpan(sb, weak, i) && !b[i] && IsI8(ShortDisp(sb, weak, b, i))
    ensures IsI8(ShortDisp(sb, weak, a, i))
  {
    hide Off, ExtremeSpan, ShortDisp;
    var lo, hi := SpanStart(sb, i), SpanEnd(sb, i);
    assert !a[i];
    ShortDispSpan(sb, weak, a, i);
    ShortDispSpan(sb, weak, b, i);
    SpanBetweenExtremes(sb, weak, a, lo, hi);
    SpanBetweenExtremes(sb, weak, b, lo, hi);
    if NoAlignBetween(sb, lo, hi) {
      DistanceGrows(sb, weak, a, b, lo, hi);
    }
  }

  lemma {:induction false} LeastFrom(sb: SecBuild, weak: set<string>, long: seq<bool>, other: seq<bool>)
    requires WellFormed(sb) && SteadySpans(sb, weak) && |long| == |sb.items|
    requires ValidSizing(sb, weak, other) && Included(long, other)
    ensures Relaxed(sb, weak, long).Ok?
    ensures Included(Relaxed(sb, weak, long).value, other)
    decreases CountShort(long)
  {
    NoErrorBelow(sb, weak, long, other);
    var next := Grow(sb, weak, long);
    forall i | 0 <= i < |next| && next[i]
      ensures other[i]
    {
      if !long[i] && !other[i] {
        FitsInSmaller(sb, weak, long, other, i);
        assert false;
      }
    }
    if next != long {
      GrowMakesProgress(sb, weak, long);
      LeastFrom(sb, weak, next, other);
    }
  }

  /**
    Relaxation picks the least sizing: when no alignment item decides whether some branch reaches its
    label, and any valid sizing exists at all, the loop succeeds and its long branches are long in every
    valid sizing.
   */
  lemma RelaxationIsLeast(sb: SecBuild, weak: set<string>, other: seq<bool>)
    requires WellFormed(sb) && SteadySpans(sb, weak) && ValidSizing(sb, weak, other)
    ensures Relaxed(sb, weak, AllShort(|sb.items|)).Ok?
    ensures ValidSizing(sb, weak, Relaxed(sb, weak, AllShort(|sb.items|)).value)
    ensures Included(Relaxed(sb, weak, AllShort(|sb.items|)).value, other)
  {
    LeastFrom(sb, weak, AllShort(|sb.items|), other);
    RelaxedIsValid(sb, weak, AllShort(|sb.items|));
  }

  // ---- leastness, exactly -------------------------------------------------

  /** The sizing after n rounds. */
  function AfterRounds(sb: SecBuild, weak: set<string>, long: seq<bool>, n: nat): (r: seq<bool>)
    requires WellFormed(sb) && |long| == |sb.items|
    ensures |r| == |sb.items|
    decreases n
  {
    if n == 0 then long else AfterRounds(sb, weak, Grow(sb, weak, long), n - 1)
  }

  /** Every branch that the other sizing keeps short reaches its label in every round. */
  ghost predicate KeptInReach(sb: SecBuild, weak: set<string>, long: seq<bool>, other: seq<bool>)
    requires WellFormed(sb) && |long| == |other| == |sb.items|
  {
    forall n: nat, i: nat :: i < |other| && !other[i] ==> !MustGrow(sb, weak, AfterRounds(sb, weak, long, n), i)
  }

  lemma {:induction false} RoundsSettle(sb: SecBuild, weak: set<string>, long: seq<bool>, n: nat)
    requires WellFormed(sb) && |long| == |sb.items| && Grow(sb, weak, long) == long
    ensures AfterRounds(sb, weak, long, n) == long
  {
    if n > 0 {
      RoundsSettle(sb, weak, long, n - 1);
    }
  }

  /** One round more: in reach now, and in reach from the next sizing on. */
  lemma ReachNext(sb: SecBuild, weak: set<string>, long: seq<bool>, other: seq<bool>)
    requires WellFormed(sb) && |long| == |other| == |sb.items|
    ensures KeptInReach(sb, weak, long, other)
            <==> (forall i: nat :: i < |other| && !other[i] ==> !MustGrow(sb, weak, long, i))
                 && KeptInReach(sb, weak, Grow(sb, weak, long), other)
  {
    hide MustGrow, Grow;
    var next := Grow(sb, weak, long);
    assert AfterRounds(sb, weak, long, 0) == long;
    forall n: nat ensures AfterRounds(sb, weak, next, n) == AfterRounds(sb, weak, long, n + 1) {}
    if (forall i: nat :: i < |other| && !other[i] ==> !MustGrow(sb, weak, long, i)) && KeptInReach(sb, weak, next, other) {
      forall n: nat, i: nat | i < |other| && !other[i] ensures !MustGrow(sb, weak, AfterRounds(sb, weak, long, n), i) {
        if n > 0 {
          assert AfterRounds(sb, weak, long, n) == AfterRounds(sb, weak, next, n - 1);
        }
      }
    }
  }

  /** No item overflows in a sizing below a valid one. */
  lemma NoErrorBelow(sb: SecBuild, weak: set<string>, long: seq<bool>, other: seq<bool>)
    requires WellFormed(sb) && ValidSizing(sb, weak, other) && |long| == |sb.items| && Included(long, other)
    ensures WalkError(sb, weak, long, 0) == None
  {
    forall i | 0 <= i < |sb.items| ensures ItemError(sb, weak, long, i) == None {
      WalkOk(sb, weak, other, 0, i);
      OffsetGrows(sb, weak, long, other, i + 1);
    }
    NoErrors(sb, weak, long, 0);
  }

  lemma {:induction false} LeastFromExactly(sb: SecBuild, weak: set<string>, long: seq<bool>, other: seq<bool>)
    requires WellFormed(sb) && ValidSizing(sb, weak, other) && |long| == |sb.items| && Included(long, other)
    ensures Relaxed(sb, weak, long).Ok? && Included(Relaxed(sb, weak, long).value, other) <==> KeptInReach(sb, weak, long, other)
    decreases CountShort(long)
  {
    hide ValidSizing, MustGrow;
    NoErrorBelow(sb, weak, long, other);
    var next := Grow(sb, weak, long);
    GrowMakesProgress(sb, weak, long);
    ReachNext(sb, weak, long, other);
    if next == long {
      forall n: nat, i: nat | i < |other| && !other[i] ensures !MustGrow(sb, weak, AfterRounds(sb, weak, long, n), i) {
        RoundsSettle(sb, weak, long, n);
        assert next[i] == long[i];
        GrownOnly(sb, weak, long, i);
      }
    } else if Included(next, other) {
      forall i: nat | i < |other| && !other[i] ensures !MustGrow(sb, weak, long, i) {
        GrownOnly(sb, weak, long, i);
      }
      LeastFromExactly(sb, weak, next, other);
    } else {
      var i: nat :| i < |next| && next[i] && !other[i];
      GrownOnly(sb, weak, long, i);
      RelaxedIsValid(sb, weak, next);
    }
  }

  /** A round lengthens exactly the branches that must grow. */
  lemma GrownOnly(sb: SecBuild, weak: set<string>, long: seq<bool>, i: nat)
    requires WellFormed(sb) && |long| == |sb.items| && i < |long|
    ensures MustGrow(sb, weak, long, i) <==> !long[i] && Grow(sb, weak, long)[i]
  {
  }

  /**
    Relaxation stays below a valid sizing exactly if every branch that sizing keeps short is in reach in
    every round. A branch with a steady span always is; another one breaks leastness exactly when some
    round finds it out of reach while some valid sizing keeps it short.
   */
  lemma LeastExactly(sb: SecBuild, weak: set<string>, other: seq<bool>)
    requires WellFormed(sb) && ValidSizing(sb, weak, other)
    ensures var r := Relaxed(sb, weak, AllShort(|sb.items|));
            r.Ok? && Included(r.value, other) <==> KeptInReach(sb, weak, AllShort(|sb.items|), other)
  {
    LeastFromExactly(sb, weak, AllShort(|sb.items|), other);
  }

  // ---- leastness needs steady spans -------------------------------------

  /** `jmp far; jmp near; 125 zero bytes; .p2align 2; near: 200 zero bytes; far:` */
  function AlignedStream(): SecBuild {
    SecBuild(
      [Branch(Jmp, "far"), Branch(Jmp, "near"), Zero(125), Align(2, None, None), Zero(200)],
      map["near" := 4, "far" := 5], ["near", "far"], 4, 1, 6)
  }

  /**
    With an alignment item between a branch and its label the loop can miss the least sizing: `near` is out
    of reach only while `far` is still short, so it grows although the sizing that keeps it short is valid.
   */
  lemma AlignmentBreaksLeastness()
    ensures WellFormed(AlignedStream()) && IsRelaxable(AlignedStream(), {}, 0) && IsRelaxable(AlignedStream(), {}, 1)
    ensures SteadySpan(AlignedStream(), {}, 0) && !SteadySpan(AlignedStream(), {}, 1)
    ensures ValidSizing(AlignedStream(), {}, [true, false, false, false, false])
    ensures Relaxed(AlignedStream(), {}, AllShort(5)).Ok?
    ensures Relaxed(AlignedStream(), {}, AllShort(5)).value[1]
  {
    AlignedSpans();
    hide SteadySpan;
    var sb := AlignedStream();
    var short, grown := AllShort(5), [true, true, false, false, false];
    AlignedKeepsNearShort();
    AlignedGrows(short, grown, 2, 2);
    AlignedGrows(grown, grown, 5, 5);
    AlignedWalk(short, 2, 2);
    AlignedWalk(grown, 5, 5);
    GrowMakesProgress(sb, {}, short);
    assert Relaxed(sb, {}, grown) == Ok(grown);
    assert Relaxed(sb, {}, short) == Relaxed(sb, {}, grown);
  }

  lemma SpanNext(sb: SecBuild, weak: set<string>, largest: bool, lo: nat, hi: nat)
    requires lo <= hi < |sb.items|
    ensures ExtremeSpan(sb, weak, largest, lo, lo) == 0
    ensures ExtremeSpan(sb, weak, largest, lo, hi + 1) == ExtremeSpan(sb, weak, largest, lo, hi) + ExtremeSize(sb, weak, largest, hi)
  {
    hide ExtremeSize;
  }

  lemma AlignedSpans()
    ensures WellFormed(AlignedStream()) && IsRelaxable(AlignedStream(), {}, 0) && IsRelaxable(AlignedStream(), {}, 1)
    ensures SteadySpan(AlignedStream(), {}, 0) && !SteadySpan(AlignedStream(), {}, 1)
  {
    hide ExtremeSpan;
    var sb := AlignedStream();
    assert Pow2(2) == 4 by { assert Pow2(1) == 2; }
    assert sb.items[3].Align?;
    forall largest: bool
      ensures ExtremeSpan(sb, {}, largest, 2, 4) == 125 + if largest then 3 else 0
    {
      SpanNext(sb, {}, largest, 2, 2);
      SpanNext(sb, {}, largest, 2, 3);
    }
    SpanNext(sb, {}, false, 1, 4);
  }

  lemma AlignedKeepsNearShort()
    ensures ValidSizing(AlignedStream(), {}, [true, false, false, false, false])
  {
    hide Off, WalkError;
    var other := [true, false, false, false, false];
    AlignedOffsets(other, 5, 2);
    AlignedWalk(other, 5, 2);
  }

  lemma AlignedGrows(long: seq<bool>, next: seq<bool>, first: nat, second: nat)
    requires |long| == 5 && first == BranchLen(Jmp, long[0]) && second == BranchLen(Jmp, long[1])
    requires first == second && next == [true, true, long[2], long[3], long[4]]
    ensures Grow(AlignedStream(), {}, long) == next
  {
    var sb := AlignedStream();
    AlignedOffsets(long, first, second);
    assert MustGrow(sb, {}, long, 0) == !long[0];
    assert MustGrow(sb, {}, long, 1) == !long[1];
  }

  lemma PadToFour(pos: nat)
    ensures pos + AlignPad(pos, 2, None) == (pos + 3) / 4 * 4
  {
    assert Pow2(2) == 4 by { assert Pow2(1) == 2; }
  }

  lemma AlignedOffsets(long: seq<bool>, first: nat, second: nat)
    requires |long| == 5 && first == BranchLen(Jmp, long[0]) && second == BranchLen(Jmp, long[1])
    ensures Off(AlignedStream(), {}, long, 0) == 0
    ensures Off(AlignedStream(), {}, long, 1) == first
    ensures Off(AlignedStream(), {}, long, 2) == first + second
    ensures Off(AlignedStream(), {}, long, 3) == first + second + 125
    ensures Off(AlignedStream(), {}, long, 4) == (first + second + 128) / 4 * 4
    ensures Off(AlignedStream(), {}, long, 5) == (first + second + 128) / 4 * 4 + 200
  {
    hide Off, AlignPad;
    var sb := AlignedStream();
    PadToFour(first + second + 125);
    forall i: nat | i < 5 { OffNext(sb, {}, long, i); }
    WalkEnds(sb, {}, long);
    assert Off(sb, {}, long, 1) == Off(sb, {}, long, 0) + ItemSize(sb, {}, long, 0, 0);
    assert Off(sb, {}, long, 2) == Off(sb, {}, long, 1) + ItemSize(sb, {}, long, 1, first);
    assert Off(sb, {}, long, 3) == Off(sb, {}, long, 2) + ItemSize(sb, {}, long, 2, first + second);
    assert Off(sb, {}, long, 4) == Off(sb, {}, long, 3) + ItemSize(sb, {}, long, 3, first + second + 125);
    assert Off(sb, {}, long, 5) == Off(sb, {}, long, 4) + 200;
  }

  lemma AlignedWalk(long: seq<bool>, first: nat, second: nat)
    requires |long| == 5 && first == BranchLen(Jmp, long[0]) && second == BranchLen(Jmp, long[1])
    ensures WalkError(AlignedStream(), {}, long, 0) == None
  {
    AlignedOffsets(long, first, second);
    NoErrors(AlignedStream(), {}, long, 0);
  }
}
