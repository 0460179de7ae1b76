/** Machine words: bytes, little-endian fields, two's complement and powers of two. */
module Words {

  type byte = b: int | 0 <= b < 256

  type bytes = seq<byte>

  const U16_MAX: int := 0xFFFF
  const U32_MAX: int := 0xFFFF_FFFF
  const U64_MAX: int := 0xFFFF_FFFF_FFFF_FFFF
  const I64_MIN: int := -0x8000_0000_0000_0000
  const I64_MAX: int := 0x7FFF_FFFF_FFFF_FFFF

  predicate IsI8(x: int) { -0x80 <= x <= 0x7F }
  predicate IsI32(x: int) { -0x8000_0000 <= x <= 0x7FFF_FFFF }
  predicate IsI64(x: int) { I64_MIN <= x <= I64_MAX }
  predicate IsU64(x: int) { 0 <= x <= U64_MAX }

  type u16 = x: int | 0 <= x <= 0xFFFF
  type u32 = x: int | 0 <= x <= 0xFFFF_FFFF
  type i64 = x: int | -0x8000_0000_0000_0000 <= x <= 0x7FFF_FFFF_FFFF_FFFF
  type u64 = x: int | 0 <= x <= 0xFFFF_FFFF_FFFF_FFFF

  datatype Option<+T> = None | Some(value: T)

  datatype Result<+T, +E> = Ok(value: T) | Err(error: E) {
    predicate IsFailure() { Err? }
    function PropagateFailure<U>(): Result<U, E>
      requires Err?
    {
      Err(error)
    }
    function Extract(): T
      requires Ok?
    {
      value
    }
  }

  function Min(a: int, b: int): int { if a <= b then a else b }
  function Max(a: int, b: int): int { if a >= b then a else b }

  // ---- powers of two -------------------------------------------------

  function Pow2(n: nat): (p: nat)
    ensures p >= 1
  {
    if n == 0 then 1 else 2 * Pow2(n - 1)
  }

  lemma {:induction false} Pow2Add(m: nat, n: nat)
    ensures Pow2(m + n) == Pow2(m) * Pow2(n)
  {
    if m == 0 {
    } else {
      Pow2Add(m - 1, n);
      assert Pow2(m + n) == 2 * Pow2(m - 1 + n);
    }
  }

  lemma Pow2Monotone(m: nat, n: nat)
    requires m <= n
    ensures Pow2(m) <= Pow2(n)
    decreases n
  {
    if m < n {
      Pow2Monotone(m, n - 1);
    }
  }

  // ---- division facts the solver does not find alone ------------------

  /** Euclidean quotient and remainder are determined by their defining equation. */
  lemma DivModUnique(x: int, d: int, q: int, r: int)
    requires d > 0 && x == q * d + r && 0 <= r < d
    ensures x / d == q && x % d == r
  {
    var q' := x / d;
    assert x == q' * d + x % d;
    if q < q' {
      MulAtLeast(q' - q, d);
      assert false;
    } else if q' < q {
      MulAtLeast(q - q', d);
      assert false;
    }
  }

  lemma MulAtLeast(k: int, d: int)
    requires k >= 1 && d >= 0
    ensures k * d >= d
  {
  }

  lemma ModAddMultiple(x: int, k: int, d: int)
    requires d > 0
    ensures (x + k * d) % d == x % d
  {
    var q, r := x / d, x % d;
    assert x + k * d == (q + k) * d + r;
    DivModUnique(x + k * d, d, q + k, r);
  }

  /** Equal remainders mean the numbers differ by a multiple. */
  lemma ModEqualDifference(x: int, y: int, d: int) returns (k: int)
    requires d > 0 && x % d == y % d
    ensures x == y + k * d
  {
    k := x / d - y / d;
    assert x == (x / d) * d + x % d;
    assert y == (y / d) * d + y % d;
    assert k * d == (x / d) * d - (y / d) * d;
  }

  /** Reducing modulo a multiple of d first does not change the remainder modulo d. */
  lemma ModOfMod(x: int, m: int, d: int)
    requires m > 0 && d > 0
    ensures m * d > 0
    ensures (x % (m * d)) % d == x % d
  {
    assert m * d > 0 by { MulAtLeast(m, d); }
    var q := x / (m * d);
    assert x == q * (m * d) + x % (m * d);
    assert q * (m * d) == (q * m) * d;
    ModAddMultiple(x % (m * d), q * m, d);
  }

  // ---- little-endian fields ------------------------------------------

  function Pow256(n: nat): (p: nat)
    ensures p >= 1
  {
    if n == 0 then 1 else 256 * Pow256(n - 1)
  }

  /** The low n bytes of v, least significant first; negative values in two's complement. */
  function LE(v: int, n: nat): (bs: seq<byte>)
    ensures |bs| == n
    decreases n
  {
    if n == 0 then [] else [v % 256] + LE(v / 256, n - 1)
  }

  function FromLE(bs: seq<byte>): (v: nat)
  {
    if bs == [] then 0 else bs[0] + 256 * FromLE(bs[1..])
  }

  lemma {:induction false} FromLEBound(bs: seq<byte>)
    ensures FromLE(bs) < Pow256(|bs|)
  {
    if bs != [] {
      FromLEBound(bs[1..]);
    }
  }

  /** Writing a field and reading it back yields the value modulo the field width. */
  lemma {:induction false} FieldRoundTrip(v: int, n: nat)
    ensures FromLE(LE(v, n)) == v % Pow256(n)
    decreases n
  {
    if n > 0 {
      FieldRoundTrip(v / 256, n - 1);
      assert LE(v, n)[1..] == LE(v / 256, n - 1);
      LowByteFirst(v, Pow256(n - 1));
    }
  }

  lemma LowByteFirst(v: int, p: nat)
    requires p > 0
    ensures v % (256 * p) == v % 256 + 256 * (v / 256 % p)
  {
    var q := v / 256;
    var r, k := q % p, q / p;
    assert q == k * p + r;
    assert v == k * (256 * p) + (v % 256 + 256 * r) by {
      assert v == 256 * q + v % 256;
      assert 256 * (k * p) == k * (256 * p);
    }
    DivModUnique(v, 256 * p, k, v % 256 + 256 * r);
  }

  lemma Pow256Values()
    ensures Pow256(0) == 1 && Pow256(1) == 0x100 && Pow256(2) == 0x1_0000
    ensures Pow256(4) == 0x1_0000_0000 && Pow256(8) == 0x1_0000_0000_0000_0000
  {
    assert Pow256(2) == 256 * Pow256(1);
    assert Pow256(3) == 256 * Pow256(2);
    assert Pow256(4) == 256 * Pow256(3);
    assert Pow256(5) == 256 * Pow256(4);
    assert Pow256(6) == 256 * Pow256(5);
    assert Pow256(7) == 256 * Pow256(6);
    assert Pow256(8) == 256 * Pow256(7);
  }

  lemma {:induction false} Pow256Add(m: nat, n: nat)
    ensures Pow256(m + n) == Pow256(m) * Pow256(n)
  {
    if m > 0 {
      Pow256Add(m - 1, n);
      var a, b := Pow256(m - 1), Pow256(n);
      assert Pow256(m) == 256 * a && Pow256(m + n) == 256 * Pow256(m - 1 + n);
      hide Pow256;
      assert (256 * a) * b == 256 * (a * b);
    }
  }

  // ---- two's complement ----------------------------------------------

  /** The signed reading of an unsigned word below `modulus`. */
  function Signed(u: int, modulus: int): int
  {
    if 2 * u < modulus then u else u - modulus
  }

  /** `i64` wrapping arithmetic: the representative of x modulo 2^64 in the signed range. */
  function WrapI64(x: int): (w: int)
    ensures IsI64(w)
  {
    Signed(x % 0x1_0000_0000_0000_0000, 0x1_0000_0000_0000_0000)
  }

  lemma WrapI64Congruent(x: int, n: nat)
    requires n <= 8
    ensures WrapI64(x) % Pow256(n) == x % Pow256(n)
  {
    Pow256Values();
    Pow256Add(8 - n, n);
    WrapMod(x, Pow256(8 - n), Pow256(n));
  }

  /** Wrapping is invisible modulo any divisor of 2^64. */
  lemma WrapMod(x: int, a: nat, b: nat)
    requires a > 0 && b > 0 && a * b == 0x1_0000_0000_0000_0000
    ensures WrapI64(x) % b == x % b
  {
    ModOfMod(x, a, b);
    var u := x % 0x1_0000_0000_0000_0000;
    if 2 * u >= 0x1_0000_0000_0000_0000 {
      assert u - 0x1_0000_0000_0000_0000 == u + (0 - a) * b;
      ModAddMultiple(u, 0 - a, b);
    }
  }

  /** A value in the signed range survives being written as an n-byte field and read as signed. */
  lemma SignedRoundTrip(v: int, n: nat)
    requires n >= 1 && 0 - Pow256(n) <= 2 * v < Pow256(n)
    ensures Signed(FromLE(LE(v, n)), Pow256(n)) == v
  {
    FieldRoundTrip(v, n);
    var m := Pow256(n);
    if v >= 0 {
      DivModUnique(v, m, 0, v);
    } else {
      DivModUnique(v, m, -1, v + m);
    }
  }

  function Repeated(b: byte, n: nat): (bs: bytes)
    ensures |bs| == n && forall i :: 0 <= i < n ==> bs[i] == b
  {
    seq(n, _ => b)
  }

  // ---- parts of a byte sequence ----------------------------------------

  /** `part` occurs in `whole` at position `at`. */
  predicate SliceAt<T(==)>(whole: seq<T>, at: nat, part: seq<T>) {
    at + |part| <= |whole| && whole[at..at + |part|] == part
  }

  lemma SliceInside<T>(whole: seq<T>, a: nat, mid: seq<T>, k: nat, part: seq<T>)
    requires SliceAt(whole, a, mid) && SliceAt(mid, k, part)
    ensures SliceAt(whole, a + k, part)
  {
    forall q | 0 <= q < |part| ensures whole[a + k + q] == part[q] {
      assert mid[k + q] == mid[k..k + |part|][q];
      assert whole[a..a + |mid|][k + q] == whole[a + k + q];
    }
  }

  lemma SliceKept<T>(whole: seq<T>, more: seq<T>, at: nat, part: seq<T>)
    requires SliceAt(whole, at, part)
    ensures SliceAt(whole + more, at, part)
  {
    assert (whole + more)[at..at + |part|] == whole[at..at + |part|];
  }

  lemma SliceItem<T>(whole: seq<T>, at: nat, part: seq<T>, i: nat)
    requires SliceAt(whole, at, part) && i < |part|
    ensures at + i < |whole| && whole[at + i] == part[i]
  {
    assert whole[at..at + |part|][i] == whole[at + i];
  }

  /** A field of n bytes at a position. */
  function WordAt(bs: seq<byte>, at: nat, n: nat): nat
    requires at + n <= |bs|
  {
    FromLE(bs[at..at + n])
  }

  lemma WordRead(bs: seq<byte>, at: nat, v: nat, n: nat)
    requires SliceAt(bs, at, LE(v, n)) && v < Pow256(n)
    ensures at + n <= |bs| && WordAt(bs, at, n) == v
  {
    FieldRoundTrip(v, n);
    DivModUnique(v, Pow256(n), 0, v);
  }

  /** A number in a part of a part. */
  lemma PartRead(bs: seq<byte>, at: nat, part: seq<byte>, k: nat, v: nat, n: nat)
    requires SliceAt(bs, at, part) && SliceAt(part, k, LE(v, n)) && v < Pow256(n)
    ensures at + k + n <= |bs| && WordAt(bs, at + k, n) == v
  {
    hide LE, Pow256, WordAt;
    SliceInside(bs, at, part, k, LE(v, n));
    WordRead(bs, at + k, v, n);
  }

  lemma SlicePiece<T>(whole: seq<T>, x: seq<T>, part: seq<T>, y: seq<T>)
    requires whole == x + part + y
    ensures SliceAt(whole, |x|, part)
  {
  }
}
