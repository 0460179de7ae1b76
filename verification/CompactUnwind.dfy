/**
  Compact unwind encodings (src/assemble.rs, arm64 modes of <mach-o/compact_unwind_encoding.h>): when
  the tracked rule has one of the two encodable shapes, 32 bits stand for the whole rule.
 */
module CompactUnwind {
  import opened Words
  import opened Cfi

  const MODE_FRAMELESS: nat := 0x0200_0000
  const MODE_DWARF: nat := 0x0300_0000
  const MODE_FRAME: nat := 0x0400_0000

  const PAIRS: nat := 5

  /** The value of the bit for pair k, the registers 19 + 2k and 20 + 2k. */
  function PairBit(k: nat): nat
    requires k < PAIRS
  {
    if k == 0 then 1 else if k == 1 then 2 else if k == 2 then 4 else if k == 3 then 8 else 16
  }

  predicate HasPair(e: nat, k: nat)
    requires k < PAIRS
  {
    (e / PairBit(k)) % 2 == 1
  }

  // ---- what an encoding means -----------------------------------------------------------

  /** The first n pairs: present ones lie one below the other from `start`; and the next free slot. */
  function Pairs(e: nat, start: int, n: nat): (r: (map<Reg, int>, int))
    requires n <= PAIRS
  {
    if n == 0 then (map[], start)
    else
      var before := Pairs(e, start, n - 1);
      if HasPair(e, n - 1) then
        (before.0[17 + 2 * n := before.1][18 + 2 * n := before.1 - 8], before.1 - 16)
      else before
  }

  function Mode(e: nat): nat { (e / 0x100_0000) % 16 }

  /** The rule a 32-bit encoding stands for; DWARF mode and unknown modes stand for none. */
  function DecodeCompact(e: nat): Option<Rules> {
    if Mode(e) == 2 then Some(Rules(SP, (e / 0x1000) % 0x1000 * 16, Pairs(e, -8, PAIRS).0))
    else if Mode(e) == 4 then Some(Rules(29, 16, Pairs(e, -24, PAIRS).0[29 := -16][30 := -8]))
    else None
  }

  // ---- choosing the pair bits ------------------------------------------------------------

  /** The saved registers of the first n pairs. */
  function PairRegisters(saved: map<Reg, int>, n: nat): map<Reg, int> {
    map r | r in saved && 19 <= r < 19 + 2 * n :: saved[r]
  }

  lemma EvenShift(x: nat, d: nat, m: nat)
    requires d > 0
    ensures ((x + m * (2 * d)) / d) % 2 == (x / d) % 2
  {
    var q, r := x / d, x % d;
    assert x == q * d + r;
    assert m * (2 * d) == (2 * m) * d && (q + 2 * m) * d == q * d + (2 * m) * d;
    DivModUnique(x + m * (2 * d), d, q + 2 * m, r);
  }

  lemma LowBits(base: nat, low: nat, n: nat, k: nat)
    requires n < PAIRS && k < n
    ensures HasPair(base + low + PairBit(n), k) == HasPair(base + low, k)
  {
    var m := if n == k + 1 then 1 else if n == k + 2 then 2 else if n == k + 3 then 4 else 8;
    EvenShift(base + low, PairBit(k), m);
  }

  lemma HighBits(base: nat, low: nat, n: nat)
    requires n < PAIRS && low < PairBit(n) && base % 32 == 0
    ensures HasPair(base + low + PairBit(n), n) && !HasPair(base + low, n)
  {
    var d, half, q := PairBit(n), 16 / PairBit(n), base / 32;
    assert 2 * half * d == 32;
    assert base == (q * half) * (2 * d) by {
      assert base == q * 32;
      assert q * (2 * half * d) == (q * half) * (2 * d);
    }
    EvenShift(low, d, q * half);
    EvenShift(low + d, d, q * half);
    DivModUnique(low, d, 0, low);
    DivModUnique(low + d, d, 1, low);
  }

  lemma {:induction false} PairsSame(e: nat, f: nat, start: int, n: nat)
    requires n <= PAIRS && forall k :: 0 <= k < n ==> HasPair(e, k) == HasPair(f, k)
    ensures Pairs(e, start, n) == Pairs(f, start, n)
  {
    hide HasPair;
    if n > 0 {
      PairsSame(e, f, start, n - 1);
    }
  }

  lemma {:induction false} PairsKeys(e: nat, start: int, n: nat)
    requires n <= PAIRS
    ensures forall r: Reg :: r in Pairs(e, start, n).0 ==> 19 <= r < 19 + 2 * n
    ensures forall k :: 0 <= k < n ==>
              && (HasPair(e, k) <==> 19 + 2 * k in Pairs(e, start, n).0)
              && (HasPair(e, k) <==> 20 + 2 * k in Pairs(e, start, n).0)
              && (HasPair(e, k) ==> Pairs(e, start, n).0[19 + 2 * k] == Pairs(e, start, k).1
                                    && Pairs(e, start, n).0[20 + 2 * k] == Pairs(e, start, k).1 - 8)
  {
    hide HasPair;
    if n > 0 {
      PairsKeys(e, start, n - 1);
    }
  }

  /** The first n pairs are those the encoding describes. */
  ghost predicate Described(saved: map<Reg, int>, e: nat, start: int, n: nat) {
    n <= PAIRS && PairRegisters(saved, n) == Pairs(e, start, n).0
  }

  /** Any encoding of all pairs has, on the first n, the bits already chosen. */
  lemma {:induction false} BitsForced(saved: map<Reg, int>, e: nat, f: nat, start: int, n: nat)
    requires Described(saved, e, start, n) && Described(saved, f, start, PAIRS)
    ensures forall k :: 0 <= k < n ==> HasPair(e, k) == HasPair(f, k)
    ensures Pairs(e, start, n) == Pairs(f, start, n)
  {
    hide HasPair;
    PairsKeys(e, start, n);
    PairsKeys(f, start, PAIRS);
    forall k | 0 <= k < n ensures HasPair(e, k) == HasPair(f, k) {
      assert 19 + 2 * k in Pairs(e, start, n).0 <==> 19 + 2 * k in PairRegisters(saved, n);
      assert 19 + 2 * k in Pairs(f, start, PAIRS).0 <==> 19 + 2 * k in PairRegisters(saved, PAIRS);
    }
    PairsSame(e, f, start, n);
  }

  /** Adding a pair stored at the next slots. */
  lemma PairAdded(saved: map<Reg, int>, base: nat, low: nat, start: int, n: nat)
    requires n < PAIRS && low < PairBit(n) && base % 32 == 0 && Described(saved, base + low, start, n)
    requires var next := Pairs(base + low, start, n).1;
             19 + 2 * n in saved && 20 + 2 * n in saved && saved[19 + 2 * n] == next && saved[20 + 2 * n] == next - 8
    ensures Described(saved, base + low + PairBit(n), start, n + 1)
    ensures Pairs(base + low + PairBit(n), start, n + 1).1 == Pairs(base + low, start, n).1 - 16
  {
    hide PairBit;
    var e, f := base + low, base + low + PairBit(n);
    forall k | 0 <= k < n ensures HasPair(e, k) == HasPair(f, k) { LowBits(base, low, n, k); }
    HighBits(base, low, n);
    PairsSame(e, f, start, n);
    RegistersNext(saved, n);
  }

  lemma RegistersNext(saved: map<Reg, int>, n: nat)
    requires n < PAIRS && 19 + 2 * n in saved && 20 + 2 * n in saved
    ensures PairRegisters(saved, n + 1) == PairRegisters(saved, n)[19 + 2 * n := saved[19 + 2 * n]][20 + 2 * n := saved[20 + 2 * n]]
  {
  }

  lemma PairAbsent(saved: map<Reg, int>, base: nat, low: nat, start: int, n: nat)
    requires n < PAIRS && low < PairBit(n) && base % 32 == 0 && Described(saved, base + low, start, n)
    requires 19 + 2 * n !in saved && 20 + 2 * n !in saved
    ensures Described(saved, base + low, start, n + 1)
    ensures Pairs(base + low, start, n + 1).1 == Pairs(base + low, start, n).1
  {
    HighBits(base, low, n);
    assert PairRegisters(saved, n + 1) == PairRegisters(saved, n);
  }

  /** A pair stored anywhere else, or half a pair, has no encoding. */
  lemma PairRefused(saved: map<Reg, int>, e: nat, start: int, n: nat)
    requires n < PAIRS && Described(saved, e, start, n)
    requires 19 + 2 * n in saved || 20 + 2 * n in saved
    requires !(19 + 2 * n in saved && 20 + 2 * n in saved
               && saved[19 + 2 * n] == Pairs(e, start, n).1 && saved[20 + 2 * n] == Pairs(e, start, n).1 - 8)
    ensures forall f: nat :: !Described(saved, f, start, PAIRS)
  {
    hide HasPair;
    var all := PairRegisters(saved, PAIRS);
    assert 19 + 2 * n in saved <==> 19 + 2 * n in all;
    assert 20 + 2 * n in saved <==> 20 + 2 * n in all;
    forall f: nat ensures !Described(saved, f, start, PAIRS) {
      if Described(saved, f, start, PAIRS) {
        BitsForced(saved, e, f, start, n);
        PairsKeys(f, start, PAIRS);
        assert false;
      }
    }
  }

  /** Set the bit of each pair saved at the next slots; give up on any other arrangement. */
  method EncodePairs(saved: map<Reg, int>, base: nat, start: int) returns (r: Option<nat>)
    requires base % 32 == 0
    ensures r.Some? ==> base <= r.value < base + 32 && Described(saved, r.value, start, PAIRS)
    ensures r.None? ==> forall f: nat :: !Described(saved, f, start, PAIRS)
  {
    hide HasPair, Described;
    var encoding, next := base, start;
    var k := 0;
    NothingDescribed(saved, base, start);
    while k < PAIRS
      invariant 0 <= k <= PAIRS && base <= encoding && Described(saved, encoding, start, k)
      invariant encoding - base < if k < PAIRS then PairBit(k) else 32
      invariant next == Pairs(encoding, start, k).1
    {
      var low, high: Reg := 19 + 2 * k, 20 + 2 * k;
      if low !in saved && high !in saved {
        PairAbsent(saved, base, encoding - base, start, k);
      } else if low in saved && high in saved && saved[low] == next && saved[high] == next - 8 {
        PairAdded(saved, base, encoding - base, start, k);
        encoding := encoding + PairBit(k);
        next := next - 16;
      } else {
        PairRefused(saved, encoding, start, k);
        return None;
      }
      k := k + 1;
    }
    return Some(encoding);
  }

  lemma NothingDescribed(saved: map<Reg, int>, e: nat, start: int)
    ensures Described(saved, e, start, 0) && Pairs(e, start, 0).1 == start
  {
  }

  // ---- the encoding of a rule ---------------------------------------------------------------

  lemma PairBitsOnly(base: nat, e: nat)
    requires base % 0x1000 == 0 && base <= e < base + 32
    ensures e / 0x1000 == base / 0x1000 && Mode(e) == Mode(base)
  {
    DivModUnique(e, 0x1000, base / 0x1000, e - base);
    assert e / 0x100_0000 == e / 0x1000 / 0x1000;
    assert base / 0x100_0000 == base / 0x1000 / 0x1000;
  }

  lemma FramelessFields(scaled: nat, e: nat)
    requires scaled <= 0xFFF && MODE_FRAMELESS + scaled * 0x1000 <= e < MODE_FRAMELESS + scaled * 0x1000 + 32
    ensures Mode(e) == 2 && (e / 0x1000) % 0x1000 == scaled && e <= U32_MAX
  {
    var base := MODE_FRAMELESS + scaled * 0x1000;
    PairBitsOnly(base, e);
    DivModUnique(base, 0x1000, 0x2000 + scaled, 0);
    DivModUnique(0x2000 + scaled, 0x1000, 2, scaled);
    assert base / 0x100_0000 == base / 0x1000 / 0x1000;
  }

  lemma AllPairs(saved: map<Reg, int>)
    requires forall r <- saved :: 19 <= r <= 28
    ensures PairRegisters(saved, PAIRS) == saved
  {
  }

  /** An encoding that decodes to the rule describes the pairs it saves. */
  lemma FramelessDescribed(rules: Rules, f: nat)
    requires rules.register == SP && DecodeCompact(f) == Some(rules)
    ensures Described(rules.saved, f, -8, PAIRS) && (forall r <- rules.saved :: 19 <= r <= 28)
    ensures 0 <= rules.offset <= 0xFFF * 16 && rules.offset % 16 == 0
  {
    hide Mode, Pairs, PairRegisters;
    PairsKeys(f, -8, PAIRS);
    AllPairs(rules.saved);
    ScaledSize(f / 0x1000);
  }

  lemma ScaledSize(x: nat)
    ensures 0 <= x % 0x1000 * 16 <= 0xFFF * 16 && x % 0x1000 * 16 % 16 == 0
  {
    DivModUnique(x % 0x1000 * 16, 16, x % 0x1000, 0);
  }

  lemma FrameDescribed(rules: Rules, f: nat)
    requires rules.register != SP && DecodeCompact(f) == Some(rules)
    ensures rules.register == 29 && rules.offset == 16
    ensures 29 in rules.saved && rules.saved[29] == -16 && 30 in rules.saved && rules.saved[30] == -8
    ensures Described(rules.saved, f, -24, PAIRS) && (forall r <- rules.saved :: 19 <= r <= 30)
  {
    hide Mode;
    PairsKeys(f, -24, PAIRS);
    assert PairRegisters(rules.saved, PAIRS) == Pairs(f, -24, PAIRS).0;
  }

  /**
    A chosen encoding decodes to the tracked rule. A rule is left to DWARF, or refused, only if an
    adjustment or restore forbids an encoding or no encoding stands for it.
   */
  method CompactUnwindEncoding(p: CfiProc) returns (r: Result<Option<nat>, CfiError>)
    requires p.Valid()
    ensures p.compactForbidden ==> r == Ok(None)
    ensures r.Ok? && r.value.Some? ==> r.value.value <= U32_MAX && DecodeCompact(r.value.value) == Some(Replay(p.events))
    ensures r.Ok? && r.value.None? ==> p.compactForbidden || forall f: nat :: DecodeCompact(f) != Some(Replay(p.events))
    ensures r.Err? <==> !p.compactForbidden && p.cfaRegister == SP && (p.cfaOffset % 16 != 0 || p.cfaOffset > 0xFFF * 16)
    ensures r.Err? ==> forall f: nat :: DecodeCompact(f) != Some(Replay(p.events))
  {
    if p.compactForbidden {
      return Ok(None);
    }
    if p.cfaRegister == SP {
      r := EncodeFrameless(p.Tracked());
    } else {
      r := EncodeFrame(p.Tracked());
    }
  }

  lemma FramelessSizeRefused(rules: Rules)
    requires rules.register == SP && (rules.offset % 16 != 0 || rules.offset > 0xFFF * 16)
    ensures forall f: nat :: DecodeCompact(f) != Some(rules)
  {
    forall f: nat ensures DecodeCompact(f) != Some(rules) {
      if DecodeCompact(f) == Some(rules) {
        FramelessDescribed(rules, f);
      }
    }
  }

  lemma FramelessPairsRefused(rules: Rules)
    requires rules.register == SP
    requires (forall f: nat :: !Described(rules.saved, f, -8, PAIRS)) || exists reg :: reg in rules.saved && !(19 <= reg <= 28)
    ensures forall f: nat :: DecodeCompact(f) != Some(rules)
  {
    hide Described;
    forall f: nat ensures DecodeCompact(f) != Some(rules) {
      if DecodeCompact(f) == Some(rules) {
        FramelessDescribed(rules, f);
      }
    }
  }

  lemma FramelessAligned(scaled: nat)
    ensures (MODE_FRAMELESS + scaled * 0x1000) % 32 == 0
  {
    ModAddMultiple(0, 0x10_0000 + scaled * 128, 32);
  }

  lemma FramelessDecodes(rules: Rules, scaled: nat, e: nat)
    requires rules.register == SP && rules.offset == scaled * 16 && scaled <= 0xFFF
    requires MODE_FRAMELESS + scaled * 0x1000 <= e < MODE_FRAMELESS + scaled * 0x1000 + 32
    requires Described(rules.saved, e, -8, PAIRS) && forall r <- rules.saved :: 19 <= r <= 28
    ensures e <= U32_MAX && DecodeCompact(e) == Some(rules)
  {
    FramelessFields(scaled, e);
    AllPairs(rules.saved);
  }

  method EncodeFrameless(rules: Rules) returns (r: Result<Option<nat>, CfiError>)
    requires rules.register == SP && rules.offset >= 0
    ensures r.Ok? && r.value.Some? ==> r.value.value <= U32_MAX && DecodeCompact(r.value.value) == Some(rules)
    ensures r.Ok? && r.value.None? ==> forall f: nat :: DecodeCompact(f) != Some(rules)
    ensures r.Err? <==> rules.offset % 16 != 0 || rules.offset > 0xFFF * 16
    ensures r.Err? ==> forall f: nat :: DecodeCompact(f) != Some(rules)
  {
    hide HasPair, Described, DecodeCompact;
    if rules.offset % 16 != 0 {
      FramelessSizeRefused(rules);
      return Err(StackSize);
    }
    var scaled := rules.offset / 16;
    if scaled > 0xFFF {
      FramelessSizeRefused(rules);
      return Err(StackSize);
    }
    var base := MODE_FRAMELESS + scaled * 0x1000;
    FramelessAligned(scaled);
    var pairs := EncodePairs(rules.saved, base, -8);
    if pairs.None? || exists reg :: reg in rules.saved && !(19 <= reg <= 28) {
      FramelessPairsRefused(rules);
      return Ok(None);
    }
    FramelessDecodes(rules, scaled, pairs.value);
    return Ok(pairs);
  }

  lemma DescribedPairs(saved: map<Reg, int>, e: nat, start: int)
    requires Described(saved, e, start, PAIRS)
    ensures PairRegisters(saved, PAIRS) == Pairs(e, start, PAIRS).0
  {
  }

  lemma FrameRefused(rules: Rules)
    requires rules.register != SP
    requires || rules.register != 29 || rules.offset != 16
             || !(29 in rules.saved && rules.saved[29] == -16 && 30 in rules.saved && rules.saved[30] == -8)
             || (forall f: nat :: !Described(rules.saved, f, -24, PAIRS))
             || (exists reg :: reg in rules.saved && !(19 <= reg <= 30))
    ensures forall f: nat :: DecodeCompact(f) != Some(rules)
  {
    hide Described;
    forall f: nat ensures DecodeCompact(f) != Some(rules) {
      if DecodeCompact(f) == Some(rules) {
        FrameDescribed(rules, f);
      }
    }
  }

  method EncodeFrame(rules: Rules) returns (r: Result<Option<nat>, CfiError>)
    requires rules.register != SP
    ensures r.Ok?
    ensures r.value.Some? ==> r.value.value <= U32_MAX && DecodeCompact(r.value.value) == Some(rules)
    ensures r.value.None? ==> forall f: nat :: DecodeCompact(f) != Some(rules)
  {
    hide HasPair, Described;
    if rules.register != 29 || rules.offset != 16 {
      FrameRefused(rules);
      return Ok(None);
    }
    if !(29 in rules.saved && rules.saved[29] == -16 && 30 in rules.saved && rules.saved[30] == -8) {
      FrameRefused(rules);
      return Ok(None);
    }
    var pairs := EncodePairs(rules.saved, MODE_FRAME, -24);
    if pairs.None? || exists reg :: reg in rules.saved && !(19 <= reg <= 30) {
      FrameRefused(rules);
      return Ok(None);
    }
    PairBitsOnly(MODE_FRAME, pairs.value);
    DescribedPairs(rules.saved, pairs.value, -24);
    FrameSaved(rules.saved, pairs.value);
    return Ok(pairs);
  }

  lemma FrameSaved(saved: map<Reg, int>, e: nat)
    requires PairRegisters(saved, PAIRS) == Pairs(e, -24, PAIRS).0
    requires forall r <- saved :: 19 <= r <= 30
    requires 29 in saved && saved[29] == -16 && 30 in saved && saved[30] == -8
    ensures Pairs(e, -24, PAIRS).0[29 := -16][30 := -8] == saved
  {
  }
}
