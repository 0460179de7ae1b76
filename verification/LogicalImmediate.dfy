/**
  AArch64 logical immediates (src/encode.rs): the search for (N, immr, imms) against the decoder
  `DecodeBitMasks` of the Arm Architecture Reference Manual (DDI 0487, shared pseudocode).
  A 64-bit word is the sequence of its bits, least significant first.
 */
module LogicalImmediate {
  import opened Words

  type Word = w: seq<bool> | |w| == 64 witness seq(64, _ => false)

  datatype Triple = Triple(n: bool, immr: nat, imms: nat)

  // ---- u64 operators, bit by bit ---------------------------------------------------

  function Bits(f: nat -> bool): (w: Word)
    ensures forall k :: 0 <= k < 64 ==> w[k] == f(k)
  {
    seq(64, k requires 0 <= k < 64 => f(k))
  }

  /** (1 << n) - 1, and u64::MAX for n = 64. */
  function LowMask(n: nat): (w: Word)
    ensures forall k :: 0 <= k < 64 ==> w[k] == (k < n)
  {
    Bits((k: nat) => k < n)
  }

  function And(a: Word, b: Word): (w: Word)
    ensures forall k :: 0 <= k < 64 ==> w[k] == (a[k] && b[k])
  {
    Bits((k: nat) => k < 64 && a[k] && b[k])
  }

  function Or(a: Word, b: Word): (w: Word)
    ensures forall k :: 0 <= k < 64 ==> w[k] == (a[k] || b[k])
  {
    Bits((k: nat) => k < 64 && (a[k] || b[k]))
  }

  function ShiftRight(a: Word, s: nat): (w: Word)
    ensures forall k :: 0 <= k < 64 ==> w[k] == (k + s < 64 && a[k + s])
  {
    Bits((k: nat) => k + s < 64 && a[k + s])
  }

  function ShiftLeft(a: Word, s: nat): (w: Word)
    ensures forall k :: 0 <= k < 64 ==> w[k] == (s <= k && a[k - s])
  {
    Bits((k: nat) => s <= k < 64 && a[k - s])
  }

  // ---- the architecture's decoder ------------------------------------------------------

  function HighestSetBit(x: nat): int
  {
    if x == 0 then -1 else 1 + HighestSetBit(x / 2)
  }

  /** Bit k of a rotated run of ones replicated with the given period. */
  predicate RunBit(esize: nat, ones: nat, rot: nat, k: nat)
    requires esize > 0
  {
    (k + rot) % esize < ones
  }

  function Replicated(width: nat, esize: nat, ones: nat, rot: nat): (w: Word)
    requires esize > 0
    ensures forall k :: 0 <= k < 64 ==> w[k] == (k < width && RunBit(esize, ones, rot, k))
  {
    Bits((k: nat) => k < width && RunBit(esize, ones, rot, k))
  }

  /** DecodeBitMasks with immediate = TRUE, for a register of 32 or 64 bits; None is UNDEFINED. */
  function DecodeBitMasks(width: nat, t: Triple): Option<Word> {
    var len := HighestSetBit((if t.n then 64 else 0) + (63 - t.imms % 64));
    if len < 1 || (width == 32 && t.n) then None
    else
      var esize := Pow2(len);
      var s, r := t.imms % esize, t.immr % esize;
      if s == esize - 1 then None
      else Some(Replicated(width, esize, s + 1, r))
  }

  predicate FieldsInRange(t: Triple) { t.immr < 64 && t.imms < 64 }

  // ---- the search -----------------------------------------------------------------------

  function RotateRightWithWidth(value: Word, rot: nat, width: nat): Word
    requires 0 < width <= 64
  {
    var v := And(value, LowMask(width));
    var r := rot % width;
    if r == 0 then v
    else And(Or(ShiftRight(v, r), ShiftLeft(v, width - r)), LowMask(width))
  }

  lemma RotatedRun(esize: nat, ones: nat, rot: nat)
    requires 0 < esize <= 64 && ones < esize && rot < esize
    ensures forall k :: 0 <= k < 64 ==> RotateRightWithWidth(LowMask(ones), rot, esize)[k] == (k < esize && RunBit(esize, ones, rot, k))
  {
    var w := RotateRightWithWidth(LowMask(ones), rot, esize);
    DivModUnique(rot, esize, 0, rot);
    forall k | 0 <= k < 64 ensures w[k] == (k < esize && RunBit(esize, ones, rot, k)) {
      if k < esize {
        if k + rot < esize {
          DivModUnique(k + rot, esize, 0, k + rot);
        } else {
          DivModUnique(k + rot, esize, 1, k + rot - esize);
        }
      }
    }
  }

  predicate ElementSize(width: nat, esize: nat) {
    esize in [2, 4, 8, 16, 32, 64] && esize <= width
  }

  method ReplicatePattern(pattern: Word, esize: nat, width: nat) returns (out: Word)
    requires (width == 32 || width == 64) && ElementSize(width, esize)
    requires forall k :: esize <= k < 64 ==> !pattern[k]
    ensures forall k :: 0 <= k < 64 ==> out[k] == (k < width && pattern[k % esize])
  {
    out := LowMask(0);
    var shift, copies := 0, 0;
    while shift < width
      invariant 0 <= copies && shift == copies * esize && shift <= width
      invariant forall k :: 0 <= k < 64 ==> out[k] == (k < shift && pattern[k % esize])
    {
      NextCopy(width, esize, copies);
      forall k | shift <= k < shift + esize ensures k % esize == k - shift {
        DivModUnique(k, esize, copies, k - shift);
      }
      out := Or(out, ShiftLeft(pattern, shift));
      shift := shift + esize;
      copies := copies + 1;
    }
    if width != 64 {
      out := And(out, LowMask(width));
    }
  }

  lemma NextCopy(width: nat, esize: nat, copies: nat)
    requires (width == 32 || width == 64) && ElementSize(width, esize) && copies * esize < width
    ensures (copies + 1) * esize <= width
  {
    assert (copies + 1) * esize == copies * esize + esize;
    if esize == 2 { } else if esize == 4 { } else if esize == 8 { } else if esize == 16 { } else if esize == 32 { } else { }
  }

  /**
    The search: a returned triple decodes to the immediate, and when none is returned no triple
    of fields decodes to it. Of all triples that do it is the one whose rotation is within its element;
    it is the only one exactly for a 64-bit immediate whose halves differ.
   */
  method EncodeLogicalImmediate(value: Word, width: nat) returns (r: Option<Triple>)
    requires width == 32 || width == 64
    ensures r.Some? ==> FieldsInRange(r.value) && DecodeBitMasks(width, r.value) == Some(And(value, LowMask(width)))
    ensures r.None? ==> forall t :: FieldsInRange(t) ==> DecodeBitMasks(width, t) != Some(And(value, LowMask(width)))
    ensures r.Some? ==> Canonical(r.value) && OnlyCanonical(width, r.value)
    ensures r.Some? ==> (OnlyTriple(width, r.value) <==> width == 64 && HalvesDiffer(value))
  {
    hide Canonical, OnlyCanonical, OnlyTriple, HalvesDiffer;
    var imm := And(value, LowMask(width));
    if imm == LowMask(0) || imm == LowMask(width) {
      forall t | FieldsInRange(t) ensures DecodeBitMasks(width, t) != Some(imm) {
        NeverUniform(width, t);
      }
      return None;
    }
    var sizes: seq<nat> := [2, 4, 8, 16, 32, 64];
    var i := 0;
    while i < |sizes|
      invariant 0 <= i <= |sizes|
      invariant forall q :: 0 <= q < i && sizes[q] <= width ==> SizeExcluded(width, sizes[q], imm)
    {
      var esize := sizes[i];
      if esize <= width {
        r := SearchSize(width, esize, imm);
        if r.Some? {
          CanonicalAlone(width, r.value);
          UniqueExactly(width, r.value);
          WideExactly(width, r.value);
          FullWidth(value, width);
          return;
        }
      }
      i := i + 1;
    }
    forall t | FieldsInRange(t) ensures DecodeBitMasks(width, t) != Some(imm) {
      if DecodeBitMasks(width, t).Some? {
        var esize, ones, rot := DecodedRun(width, t);
        var q :| 0 <= q < |sizes| && sizes[q] == esize;
        assert RunExcluded(width, esize, ones, rot, imm);
      }
    }
    return None;
  }

  predicate RunExcluded(width: nat, esize: nat, ones: nat, rot: nat, imm: Word)
    requires esize > 0
  {
    Replicated(width, esize, ones, rot) != imm
  }

  lemma RunTested(width: nat, esize: nat, ones: nat, rot: nat, imm: Word)
    requires esize > 0
    ensures RunExcluded(width, esize, ones, rot, imm) <==> Replicated(width, esize, ones, rot) != imm
  {
  }

  ghost predicate SizeExcluded(width: nat, esize: nat, imm: Word) {
    esize > 0 && forall ones, rot :: 1 <= ones < esize && 0 <= rot < esize ==> RunExcluded(width, esize, ones, rot, imm)
  }

  /** The two inner loops of the search. */
  method SearchSize(width: nat, esize: nat, imm: Word) returns (r: Option<Triple>)
    requires (width == 32 || width == 64) && ElementSize(width, esize)
    ensures r.Some? ==> FieldsInRange(r.value) && DecodeBitMasks(width, r.value) == Some(imm) && Canonical(r.value)
    ensures r.None? ==> SizeExcluded(width, esize, imm)
  {
    hide DecodeBitMasks, RunBit, RotateRightWithWidth, Imms, RunExcluded, Canonical;
    var ones := 1;
    while ones < esize
      invariant 1 <= ones <= esize
      invariant forall o, q :: 1 <= o < ones && 0 <= q < esize ==> RunExcluded(width, esize, o, q, imm)
    {
      var base := LowMask(ones);
      var rot := 0;
      while rot < esize
        invariant 0 <= rot <= esize
        invariant forall q :: 0 <= q < rot ==> RunExcluded(width, esize, ones, q, imm)
      {
        var pattern := RotateRightWithWidth(base, rot, esize);
        RotatedRun(esize, ones, rot);
        var candidate := ReplicatePattern(pattern, esize, width);
        CandidateIsRun(width, esize, ones, rot, pattern, candidate);
        RunTested(width, esize, ones, rot, imm);
        if candidate == imm {
          EncodedRun(width, esize, ones, rot);
          return Some(Triple(esize == 64, rot, Imms(esize, ones)));
        }
        rot := rot + 1;
      }
      ones := ones + 1;
    }
    return None;
  }

  /** The low six bits of !(esize - 1) << 1, with ones - 1 in the bits this leaves clear. */
  function Imms(esize: nat, ones: nat): nat
    requires 1 <= ones
  {
    (0 - 2 * esize) % 64 + (ones - 1)
  }

  lemma CandidateIsRun(width: nat, esize: nat, ones: nat, rot: nat, pattern: Word, candidate: Word)
    requires 0 < esize
    requires forall k :: 0 <= k < 64 ==> pattern[k] == (k < esize && RunBit(esize, ones, rot, k))
    requires esize <= 64 && forall k :: 0 <= k < 64 ==> candidate[k] == (k < width && pattern[k % esize])
    ensures candidate == Replicated(width, esize, ones, rot)
  {
    forall k | 0 <= k < 64 ensures candidate[k] == Replicated(width, esize, ones, rot)[k] {
      var q := k / esize;
      assert k + rot == (k % esize + rot) + q * esize;
      ModAddMultiple(k % esize + rot, q, esize);
    }
  }

  // ---- encoder fields and decoder fields agree ---------------------------------------------

  lemma SizeOfLength(len: nat)
    requires 1 <= len <= 6
    ensures Pow2(1) == 2 && Pow2(2) == 4 && Pow2(3) == 8 && Pow2(4) == 16 && Pow2(5) == 32 && Pow2(6) == 64
    ensures ElementSize(64, Pow2(len)) && (len <= 5 ==> ElementSize(32, Pow2(len)))
  {
    assert Pow2(2) == 2 * Pow2(1);
    assert Pow2(3) == 2 * Pow2(2);
    assert Pow2(4) == 2 * Pow2(3);
    assert Pow2(5) == 2 * Pow2(4);
    assert Pow2(6) == 2 * Pow2(5);
  }

  /** The highest set bit is determined by the power of two below the number. */
  lemma {:induction false} HighestBit(x: nat, len: nat)
    requires Pow2(len) <= x < Pow2(len + 1)
    ensures HighestSetBit(x) == len
  {
    if len > 0 {
      HighestBit(x / 2, len - 1);
    } else {
      assert x == 1 && HighestSetBit(0) == -1;
    }
  }

  lemma {:induction false} HighestBitRange(x: nat)
    requires x > 0
    ensures HighestSetBit(x) >= 0 && Pow2(HighestSetBit(x)) <= x < Pow2(HighestSetBit(x) + 1)
  {
    if x > 1 {
      HighestBitRange(x / 2);
    } else {
      assert HighestSetBit(0) == -1;
    }
  }

  lemma LengthBound(x: nat)
    requires 0 < x < 128
    ensures HighestSetBit(x) <= 6
  {
    HighestBitRange(x);
    SizeOfLength(6);
    assert Pow2(7) == 2 * Pow2(6);
    if HighestSetBit(x) > 6 {
      Pow2Monotone(7, HighestSetBit(x));
    }
  }

  /** The marker bits above the run, and how many elements they are. */
  lemma ImmsMarker(esize: nat) returns (q: nat)
    requires ElementSize(64, esize)
    ensures (0 - 2 * esize) % 64 == q * esize == if esize == 64 then 0 else 64 - 2 * esize
  {
    q := if esize == 2 then 30 else if esize == 4 then 14 else if esize == 8 then 6 else if esize == 16 then 2 else 0;
  }

  lemma ImmsFields(esize: nat, ones: nat)
    requires ElementSize(64, esize) && 1 <= ones < esize
    ensures var imms := Imms(esize, ones);
            && imms < 64 && imms % esize == ones - 1
            && esize <= (if esize == 64 then 64 else 0) + (63 - imms) < 2 * esize
  {
    var q := ImmsMarker(esize);
    DivModUnique(Imms(esize, ones), esize, q, ones - 1);
  }

  /** The decoder reads back the run the encoder packed. */
  lemma EncodedRun(width: nat, esize: nat, ones: nat, rot: nat)
    requires (width == 32 || width == 64) && ElementSize(width, esize) && 1 <= ones < esize && rot < esize
    ensures FieldsInRange(Triple(esize == 64, rot, Imms(esize, ones)))
    ensures DecodeBitMasks(width, Triple(esize == 64, rot, Imms(esize, ones))) == Some(Replicated(width, esize, ones, rot))
    ensures Canonical(Triple(esize == 64, rot, Imms(esize, ones)))
  {
    var len: nat :=
      if esize == 2 then 1 else if esize == 4 then 2 else if esize == 8 then 3 else if esize == 16 then 4 else if esize == 32 then 5 else 6;
    SizeOfLength(len);
    ImmsFields(esize, ones);
    var imms := Imms(esize, ones);
    var x := (if esize == 64 then 64 else 0) + (63 - imms);
    assert Pow2(len + 1) == 2 * esize;
    HighestBit(x, len);
    DivModUnique(rot, esize, 0, rot);
    DivModUnique(imms, 64, 0, imms);
  }

  function ElementSizeOf(t: Triple): nat
    requires FieldsInRange(t)
  {
    Pow2(Max(0, HighestSetBit((if t.n then 64 else 0) + (63 - t.imms % 64))))
  }

  /** The rotation is within the element. */
  predicate Canonical(t: Triple) {
    FieldsInRange(t) && t.immr < ElementSizeOf(t)
  }

  /** Every decodable triple describes a run the search visits. */
  lemma DecodedRun(width: nat, t: Triple) returns (esize: nat, ones: nat, rot: nat)
    requires (width == 32 || width == 64) && FieldsInRange(t) && DecodeBitMasks(width, t).Some?
    ensures ElementSize(width, esize) && 1 <= ones < esize && rot < esize
    ensures DecodeBitMasks(width, t) == Some(Replicated(width, esize, ones, rot))
    ensures t.n == (esize == 64) && t.imms == Imms(esize, ones)
    ensures esize == ElementSizeOf(t) && rot == t.immr % esize
  {
    var x := (if t.n then 64 else 0) + (63 - t.imms % 64);
    var len: nat := HighestSetBit(x);
    HighestBitRange(x);
    LengthBound(x);
    SizeOfLength(len);
    assert Pow2(len + 1) == 2 * Pow2(len);
    esize, ones, rot := Pow2(len), t.imms % Pow2(len) + 1, t.immr % Pow2(len);
    ImmsDetermined(t.n, t.imms, esize);
  }

  lemma ImmsDetermined(n: bool, imms: nat, esize: nat)
    requires imms < 64 && ElementSize(64, esize)
    requires esize <= (if n then 64 else 0) + (63 - imms) < 2 * esize
    ensures n == (esize == 64) && imms == Imms(esize, imms % esize + 1)
  {
    if esize == 2 { } else if esize == 4 { } else if esize == 8 { } else if esize == 16 { } else if esize == 32 { } else { }
  }

  /** No triple decodes to all zeros or all ones. */
  lemma NeverUniform(width: nat, t: Triple)
    requires (width == 32 || width == 64) && FieldsInRange(t)
    ensures DecodeBitMasks(width, t) != Some(LowMask(0)) && DecodeBitMasks(width, t) != Some(LowMask(width))
  {
    if DecodeBitMasks(width, t).Some? {
      var esize, ones, rot := DecodedRun(width, t);
      var w := Replicated(width, esize, ones, rot);
      var one := if rot == 0 then 0 else esize - rot;
      DivModUnique(one + rot, esize, if rot == 0 then 0 else 1, 0);
      var zero := esize - 1 - rot;
      DivModUnique(zero + rot, esize, 0, esize - 1);
      assert w[one] && !w[zero];
      assert !LowMask(0)[one] && LowMask(width)[zero];
    }
  }

  // ---- how far a decoding determines its triple ----------------------------------------------

  ghost predicate SameRun(e1: nat, o1: nat, r1: nat, e2: nat, o2: nat, r2: nat)
    requires e1 > 0 && e2 > 0
  {
    forall k: nat :: RunBit(e1, o1, r1, k) == RunBit(e2, o2, r2, k)
  }

  /** Runs that agree below a common multiple of their periods agree everywhere. */
  lemma RunsEverywhere(width: nat, e1: nat, o1: nat, r1: nat, e2: nat, o2: nat, r2: nat, m1: nat, m2: nat)
    requires width > 0 && e1 > 0 && e2 > 0 && width == m1 * e1 && width == m2 * e2
    requires forall k: nat :: k < width ==> RunBit(e1, o1, r1, k) == RunBit(e2, o2, r2, k)
    ensures SameRun(e1, o1, r1, e2, o2, r2)
  {
    forall k: nat ensures RunBit(e1, o1, r1, k) == RunBit(e2, o2, r2, k) {
      RunPeriod(width, e1, o1, r1, m1, k);
      RunPeriod(width, e2, o2, r2, m2, k);
      assert RunBit(e1, o1, r1, k % width) == RunBit(e2, o2, r2, k % width);
    }
  }

  lemma RunPeriod(width: nat, e: nat, o: nat, r: nat, m: nat, k: nat)
    requires width > 0 && e > 0 && width == m * e
    ensures RunBit(e, o, r, k) == RunBit(e, o, r, k % width)
  {
    var q := k / width;
    assert k == q * width + k % width;
    assert q * (m * e) == (q * m) * e;
    ModAddMultiple(k % width + r, q * m, e);
  }

  /** The bit before a run of ones: here the pattern rises. */
  predicate Rises(e: nat, o: nat, r: nat, k: nat)
    requires e > 0
  {
    !RunBit(e, o, r, k) && RunBit(e, o, r, k + 1)
  }

  lemma RisingEdge(e: nat, o: nat, r: nat, k: nat)
    requires 1 <= o < e
    ensures Rises(e, o, r, k) <==> (k + r) % e == e - 1
  {
    var x, q := (k + r) % e, (k + r) / e;
    assert k + r == q * e + x;
    if x + 1 < e {
      DivModUnique(k + 1 + r, e, q, x + 1);
    } else {
      assert (q + 1) * e == q * e + e;
      DivModUnique(k + 1 + r, e, q + 1, 0);
    }
  }

  lemma MulNotPositive(k: int, d: nat)
    requires k <= 0
    ensures k * d <= 0
  {
  }

  /** If shifting by d keeps a residue, d is a multiple of the modulus. */
  lemma ShiftedResidue(x: nat, d: nat, e: nat)
    requires e > 0 && d > 0 && (x + d) % e == x % e
    ensures d >= e
  {
    var k := ModEqualDifference(x + d, x, e);
    if k >= 1 {
      MulAtLeast(k, e);
    } else {
      MulNotPositive(k, e);
    }
  }

  /** The period of one run is at least the period of an equal run. */
  lemma PeriodAtLeast(e1: nat, o1: nat, r1: nat, e2: nat, o2: nat, r2: nat)
    requires 1 <= o1 < e1 && 1 <= o2 < e2 && r1 < e1 && SameRun(e1, o1, r1, e2, o2, r2)
    ensures e1 >= e2
  {
    var k := e1 - 1 - r1;
    DivModUnique(k + r1, e1, 0, e1 - 1);
    DivModUnique(k + e1 + r1, e1, 1, e1 - 1);
    RisingEdge(e1, o1, r1, k);
    RisingEdge(e1, o1, r1, k + e1);
    RisingEdge(e2, o2, r2, k);
    RisingEdge(e2, o2, r2, k + e1);
    assert RunBit(e1, o1, r1, k) == RunBit(e2, o2, r2, k) && RunBit(e1, o1, r1, k + 1) == RunBit(e2, o2, r2, k + 1);
    assert RunBit(e1, o1, r1, k + e1) == RunBit(e2, o2, r2, k + e1)
        && RunBit(e1, o1, r1, k + e1 + 1) == RunBit(e2, o2, r2, k + e1 + 1);
    ShiftedResidue(k + r2, e1, e2);
  }

  lemma SameRotation(e: nat, o1: nat, r1: nat, o2: nat, r2: nat)
    requires 1 <= o1 < e && 1 <= o2 < e && r1 < e && r2 < e && SameRun(e, o1, r1, e, o2, r2)
    ensures r1 == r2
  {
    var k := e - 1 - r1;
    DivModUnique(k + r1, e, 0, e - 1);
    RisingEdge(e, o1, r1, k);
    RisingEdge(e, o2, r2, k);
    assert RunBit(e, o1, r1, k) == RunBit(e, o2, r2, k) && RunBit(e, o1, r1, k + 1) == RunBit(e, o2, r2, k + 1);
    assert (k + r2) % e == e - 1;
    if r2 > r1 {
      DivModUnique(k + r2, e, 1, r2 - r1 - 1);
    } else if r2 < r1 {
      DivModUnique(k + r2, e, 0, k + r2);
    }
  }

  lemma SameLength(e: nat, o1: nat, o2: nat, r: nat)
    requires 1 <= o1 < e && 1 <= o2 < e && r < e && SameRun(e, o1, r, e, o2, r)
    ensures o1 == o2
  {
    var o: nat := Min(o1, o2);
    var k: nat := e - r + o;
    DivModUnique(k + r, e, 1, o);
    assert RunBit(e, o1, r, k) == RunBit(e, o2, r, k);
  }

  lemma SizeDivides(width: nat, esize: nat) returns (m: nat)
    requires (width == 32 || width == 64) && ElementSize(width, esize)
    ensures width == m * esize
  {
    m := width / esize;
  }

  /** Element size, run length and rotation are determined by the decoded word. */
  lemma ReplicatedInjective(width: nat, e1: nat, o1: nat, r1: nat, e2: nat, o2: nat, r2: nat)
    requires (width == 32 || width == 64) && ElementSize(width, e1) && ElementSize(width, e2)
    requires 1 <= o1 < e1 && 1 <= o2 < e2 && r1 < e1 && r2 < e2
    requires Replicated(width, e1, o1, r1) == Replicated(width, e2, o2, r2)
    ensures e1 == e2 && o1 == o2 && r1 == r2
  {
    var m1 := SizeDivides(width, e1);
    var m2 := SizeDivides(width, e2);
    forall k: nat | k < width ensures RunBit(e1, o1, r1, k) == RunBit(e2, o2, r2, k) {
      assert Replicated(width, e1, o1, r1)[k] == Replicated(width, e2, o2, r2)[k];
    }
    RunsEverywhere(width, e1, o1, r1, e2, o2, r2, m1, m2);
    PeriodAtLeast(e1, o1, r1, e2, o2, r2);
    PeriodAtLeast(e2, o2, r2, e1, o1, r1);
    SameRotation(e1, o1, r1, o2, r2);
    SameLength(e1, o1, o2, r1);
  }

  /**
    Two triples decode to the same word exactly when they have the same N and imms and their immr
    agree modulo the element size: the decoder ignores the upper bits of immr.
   */
  lemma DecodingDetermines(width: nat, t1: Triple, t2: Triple)
    requires (width == 32 || width == 64) && FieldsInRange(t1) && FieldsInRange(t2)
    requires DecodeBitMasks(width, t1).Some? && DecodeBitMasks(width, t2).Some?
    ensures DecodeBitMasks(width, t1) == DecodeBitMasks(width, t2) <==>
              t1.n == t2.n && t1.imms == t2.imms && t1.immr % ElementSizeOf(t1) == t2.immr % ElementSizeOf(t1)
  {
    hide DecodeBitMasks, RunBit;
    var e1, o1, r1 := DecodedRun(width, t1);
    var e2, o2, r2 := DecodedRun(width, t2);
    if Replicated(width, e1, o1, r1) == Replicated(width, e2, o2, r2) {
      ReplicatedInjective(width, e1, o1, r1, e2, o2, r2);
    }
  }

  /** No other triple decodes to the same word. */
  ghost predicate OnlyTriple(width: nat, t: Triple) {
    forall u :: FieldsInRange(u) && DecodeBitMasks(width, u) == DecodeBitMasks(width, t) ==> u == t
  }

  /** No other triple whose rotation is within its element decodes to the same word. */
  ghost predicate OnlyCanonical(width: nat, t: Triple) {
    forall u :: Canonical(u) && DecodeBitMasks(width, u) == DecodeBitMasks(width, t) ==> u == t
  }

  lemma CanonicalAlone(width: nat, t: Triple)
    requires (width == 32 || width == 64) && Canonical(t) && DecodeBitMasks(width, t).Some?
    ensures OnlyCanonical(width, t)
  {
    hide DecodeBitMasks, ElementSizeOf;
    forall u | Canonical(u) && DecodeBitMasks(width, u) == DecodeBitMasks(width, t) ensures u == t {
      SameCanonical(width, t, u);
    }
  }

  lemma SameCanonical(width: nat, t: Triple, u: Triple)
    requires (width == 32 || width == 64) && Canonical(t) && Canonical(u)
    requires DecodeBitMasks(width, t).Some? && DecodeBitMasks(width, u) == DecodeBitMasks(width, t)
    ensures u == t
  {
    DecodingDetermines(width, t, u);
    var e := ElementSizeOf(t);
    assert ElementSizeOf(u) == e;
    hide DecodeBitMasks, ElementSizeOf;
    DivModUnique(t.immr, e, 0, t.immr);
    DivModUnique(u.immr, e, 0, u.immr);
  }

  /** Rotating by one more element changes immr, but not what it decodes to. */
  lemma NextRotation(width: nat, t: Triple) returns (u: Triple)
    requires (width == 32 || width == 64) && FieldsInRange(t) && DecodeBitMasks(width, t).Some? && !t.n
    ensures FieldsInRange(u) && u != t && DecodeBitMasks(width, u) == DecodeBitMasks(width, t)
  {
    var e, o, r := DecodedRun(width, t);
    u := t.(immr := (t.immr + e) % 64);
    assert DecodeBitMasks(width, u).Some?;
    hide DecodeBitMasks, ElementSizeOf;
    assert 64 == (64 / e) * e;
    ModOfMod(t.immr + e, 64 / e, e);
    ModAddMultiple(t.immr, 1, e);
    DecodingDetermines(width, t, u);
  }

  /** A triple is the only one of its word exactly when its element is the whole 64-bit word. */
  lemma UniqueExactly(width: nat, t: Triple)
    requires (width == 32 || width == 64) && FieldsInRange(t) && DecodeBitMasks(width, t).Some?
    ensures OnlyTriple(width, t) <==> t.n
  {
    hide DecodeBitMasks, ElementSizeOf;
    if t.n {
      var e, o, r := DecodedRun(width, t);
      forall u | FieldsInRange(u) && DecodeBitMasks(width, u) == DecodeBitMasks(width, t) ensures u == t {
        DecodingDetermines(width, t, u);
      }
    } else {
      var u := NextRotation(width, t);
      assert u != t;
    }
  }

  /** The two 32-bit halves of a word are not the same. */
  ghost predicate HalvesDiffer(w: Word) {
    exists k :: 0 <= k < 32 && w[k] != w[k + 32]
  }

  lemma ShortElementsRepeat(esize: nat, ones: nat, rot: nat, k: nat)
    requires ElementSize(32, esize)
    ensures RunBit(esize, ones, rot, k) == RunBit(esize, ones, rot, k + 32)
  {
    var m := SizeDivides(32, esize);
    ModAddMultiple(k + rot, m, esize);
    assert k + 32 + rot == k + rot + m * esize;
  }

  lemma HalfTurn(k: nat)
    ensures (k + 32) % 64 == if k % 64 < 32 then k % 64 + 32 else k % 64 - 32
  {
  }

  lemma HalvesRepeat(ones: nat, rot: nat, k: nat)
    requires !HalvesDiffer(Replicated(64, 64, ones, rot))
    ensures RunBit(64, ones, rot, k) == RunBit(64, ones, rot, k + 32)
  {
    hide RunBit;
    var w, q := Replicated(64, 64, ones, rot), k % 64;
    RunPeriod(64, 64, ones, rot, 1, k);
    RunPeriod(64, 64, ones, rot, 1, k + 32);
    HalfTurn(k);
    assert w[q] == w[(k + 32) % 64];
  }

  /** The one run of a 64-bit element rises once, so it cannot repeat after 32 bits. */
  lemma LongElementsDiffer(ones: nat, rot: nat)
    requires 1 <= ones < 64 && rot < 64
    ensures HalvesDiffer(Replicated(64, 64, ones, rot))
  {
    hide RunBit, HalvesDiffer;
    if !HalvesDiffer(Replicated(64, 64, ones, rot)) {
      var k: nat := 63 - rot;
      RisingEdge(64, ones, rot, k);
      RisingEdge(64, ones, rot, k + 32);
      HalvesRepeat(ones, rot, k);
      HalvesRepeat(ones, rot, k + 1);
      assert false;
    }
  }

  /** N is set exactly for 64-bit immediates whose halves differ. */
  lemma WideExactly(width: nat, t: Triple)
    requires (width == 32 || width == 64) && FieldsInRange(t) && DecodeBitMasks(width, t).Some?
    ensures t.n <==> width == 64 && HalvesDiffer(DecodeBitMasks(width, t).value)
  {
    hide DecodeBitMasks, RunBit, ElementSizeOf;
    var e, o, r := DecodedRun(width, t);
    if t.n {
      LongElementsDiffer(o, r);
    } else if width == 64 {
      var w := Replicated(width, e, o, r);
      forall k | 0 <= k < 32 ensures w[k] == w[k + 32] {
        ShortElementsRepeat(e, o, r, k);
      }
    }
  }

  lemma FullWidth(value: Word, width: nat)
    requires width == 32 || width == 64
    ensures width == 64 ==> And(value, LowMask(width)) == value
  {
  }

  /** The triple found by the search is not the only one: immr = 2 and immr = 0 decode alike for pairs of bits. */
  lemma NotUnique()
    ensures DecodeBitMasks(64, Triple(false, 0, 60)) == DecodeBitMasks(64, Triple(false, 2, 60))
    ensures DecodeBitMasks(64, Triple(false, 0, 60)).Some?
  {
    SizeOfLength(1);
    HighestBit(3, 1);
  }
}
