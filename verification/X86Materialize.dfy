/**
  Materialisation of one relaxed x86-64 section: items become bytes and pending relocations
  at the offsets the sizing walk gave them.
 */
module X86Materialize {
  import opened Words
  import opened X86Layout

  const R_X86_64_64: nat := 1
  const R_X86_64_PC32: nat := 2
  const R_X86_64_PLT32: nat := 4
  const R_X86_64_32: nat := 10
  const R_X86_64_PC64: nat := 24

  /** A section with its final sizing and the labels whose final offsets are known: its own and earlier sections'. */
  datatype Context = Context(
    sb: SecBuild,
    weak: set<string>,
    long: seq<bool>,
    index: nat,
    isText: bool,
    isBss: bool,
    resolved: map<string, (nat, nat)>)

  ghost predicate Valid(c: Context) {
    && WellFormed(c.sb)
    && ValidSizing(c.sb, c.weak, c.long)
    && (forall l <- c.sb.labels :: l in c.resolved && c.resolved[l] == (c.index, LabelOffset(c, l)))
    && (forall i :: 0 <= i < |c.sb.items| && c.sb.items[i].Data? ==> 1 <= c.sb.items[i].width <= 8)
  }

  datatype EmitError =
    | RelocationOffset(item: nat)
    | SymbolicWidth(item: nat)
    | PcRelativeWidth(item: nat)
    | SubtrahendElsewhere(item: nat)
    | DotMinuend(item: nat)
    | LongBranchRange(item: nat)
    | ShortBranchRange(item: nat)

  /** Emitted bytes and the relocations against them, at section offsets. */
  datatype Piece = Piece(bytes: seq<byte>, relocs: seq<Reloc>)

  function Pos(c: Context, i: nat): nat
    requires |c.long| == |c.sb.items| && i <= |c.sb.items|
  {
    Off(c.sb, c.weak, c.long, i)
  }

  function LabelOffset(c: Context, l: string): nat
    requires |c.long| == |c.sb.items| && l in c.sb.labels && c.sb.labels[l] <= |c.sb.items|
  {
    Pos(c, c.sb.labels[l])
  }

  // ---- NOP padding -------------------------------------------------------------

  /** The n-byte NOP of the padding table. */
  function Nop(n: nat): (bs: seq<byte>)
    requires 1 <= n <= 11
    ensures |bs| == n
  {
    match n
    case 1 => [0x90]
    case 2 => [0x66, 0x90]
    case 3 => [0x0f, 0x1f, 0x00]
    case 4 => [0x0f, 0x1f, 0x40, 0x00]
    case 5 => [0x0f, 0x1f, 0x44, 0x00, 0x00]
    case 6 => [0x66, 0x0f, 0x1f, 0x44, 0x00, 0x00]
    case 7 => [0x0f, 0x1f, 0x80, 0x00, 0x00, 0x00, 0x00]
    case 8 => [0x0f, 0x1f, 0x84, 0x00, 0x00, 0x00, 0x00, 0x00]
    case 9 => [0x66, 0x0f, 0x1f, 0x84, 0x00, 0x00, 0x00, 0x00, 0x00]
    case 10 => [0x66, 0x2e, 0x0f, 0x1f, 0x84, 0x00, 0x00, 0x00, 0x00, 0x00]
    case _ => [0x66, 0x66, 0x2e, 0x0f, 0x1f, 0x84, 0x00, 0x00, 0x00, 0x00, 0x00]
  }

  /** Whole 11-byte NOPs. */
  function LongNops(k: nat): (bs: seq<byte>)
    ensures |bs| == 11 * k
  {
    if k == 0 then [] else Nop(11) + LongNops(k - 1)
  }

  /** Padding of n bytes: the remainder first, then 11-byte NOPs. */
  function NopFill(n: nat): (bs: seq<byte>)
    ensures |bs| == n
  {
    (if n % 11 == 0 then [] else Nop(n % 11)) + LongNops(n / 11)
  }

  lemma NopFillParts(q: nat, r: nat)
    requires r < 11
    ensures NopFill(11 * q + r) == (if r == 0 then [] else Nop(r)) + LongNops(q)
  {
    hide Nop, LongNops;
    DivModUnique(11 * q + r, 11, q, r);
  }

  /** The remainder comes first, then 11 bytes at a time. */
  lemma NopFillSplit(n: nat, q: nat, r: nat)
    requires n == 11 * q + r && r < 11 && n > 0
    ensures r != 0 ==> NopFill(n) == Nop(r) + NopFill(n - r)
    ensures r == 0 ==> NopFill(n) == Nop(11) + NopFill(n - 11)
  {
    hide NopFill, Nop;
    NopFillParts(q, r);
    if r != 0 {
      NopFillParts(q, 0);
      assert [] + LongNops(q) == LongNops(q);
    } else {
      NopFillParts(q - 1, 0);
      assert [] + LongNops(q) == LongNops(q);
      assert [] + LongNops(q - 1) == LongNops(q - 1);
    }
  }

  method FillNops(out: seq<byte>, count: nat) returns (r: seq<byte>)
    ensures r == out + NopFill(count)
  {
    hide NopFill, Nop;
    r := out;
    var n := count;
    if n > 11 && n % 11 != 0 {
      NopFillSplit(n, n / 11, n % 11);
      assert out + (Nop(n % 11) + NopFill(n - n % 11)) == (out + Nop(n % 11)) + NopFill(n - n % 11);
      r := r + Nop(n % 11);
      n := n - n % 11;
    }
    while n > 0
      invariant 0 <= n && (n % 11 == 0 || n < 11)
      invariant r + NopFill(n) == out + NopFill(count)
    {
      NopFillSplit(n, n / 11, n % 11);
      var take := Min(n, 11);
      assert n % 11 == if n < 11 then n else 0;
      assert NopFill(n) == Nop(take) + NopFill(n - take);
      assert r + (Nop(take) + NopFill(n - take)) == (r + Nop(take)) + NopFill(n - take);
      r := r + Nop(take);
      n := n - take;
    }
    assert NopFill(0) == [];
  }

  // ---- fields of data items -----------------------------------------------------------

  function DataRelocType(width: nat, pcRelative: bool): Option<nat> {
    match (width, pcRelative)
    case (4, false) => Some(R_X86_64_32)
    case (8, false) => Some(R_X86_64_64)
    case (4, true) => Some(R_X86_64_PC32)
    case (8, true) => Some(R_X86_64_PC64)
    case _ => None
  }

  function AtomValue(c: Context, atom: DataAtom, fieldPos: nat): Option<(nat, nat)> {
    match atom
    case Dot => Some((c.index, fieldPos))
    case Sym(name) => if name in c.resolved then Some(c.resolved[name]) else None
  }

  /** `(a as i64).wrapping_sub(b as i64).wrapping_add(addend)` */
  function WrappedDifference(a: nat, b: nat, addend: int): int {
    WrapI64(WrapI64(WrapI64(a) - WrapI64(b)) + addend)
  }

  /** One data field: bytes, or zero bytes under a relocation. */
  function Field(c: Context, i: nat, width: nat, d: DataItem, fieldPos: nat): (r: Result<Piece, EmitError>)
    requires width <= 8
    ensures r.Ok? ==> |r.value.bytes| == width
  {
    match d
    case Num(value) => Ok(Piece(LE(value, width), []))
    case SymRef(name, addend) =>
      var rType := DataRelocType(width, false);
      if rType.None? then Err(SymbolicWidth(i))
      else if fieldPos > U32_MAX then Err(RelocationOffset(i))
      else Ok(Piece(Repeated(0, width), [Reloc(fieldPos, name, rType.value, addend)]))
    case Difference(minuend, subtrahend, addend) =>
      var lhs, rhs := AtomValue(c, minuend, fieldPos), AtomValue(c, subtrahend, fieldPos);
      if lhs.Some? && rhs.Some? && lhs.value.0 == rhs.value.0 then
        Ok(Piece(LE(WrappedDifference(lhs.value.1, rhs.value.1, addend), width), []))
      else if minuend.Dot? then Err(DotMinuend(i))
      else if rhs.None? || rhs.value.0 != c.index then Err(SubtrahendElsewhere(i))
      else
        var rType := DataRelocType(width, true);
        if rType.None? then Err(PcRelativeWidth(i))
        else if fieldPos > U32_MAX then Err(RelocationOffset(i))
        else
          Ok(Piece(Repeated(0, width),
                   [Reloc(fieldPos, minuend.name, rType.value, WrappedDifference(fieldPos, rhs.value.1, addend))]))
  }

  function Join(a: Piece, b: Piece): Piece {
    Piece(a.bytes + b.bytes, a.relocs + b.relocs)
  }

  lemma WidthStep(width: nat, k: nat)
    requires k > 0
    ensures width * k == width * (k - 1) + width
  {
  }

  /** Field j of a data item that starts at `pos`. */
  function FieldAt(c: Context, i: nat, width: nat, values: seq<DataItem>, pos: nat, j: nat): (r: Result<Piece, EmitError>)
    requires width <= 8 && j < |values|
    ensures r.Ok? ==> |r.value.bytes| == width
  {
    Field(c, i, width, values[j], pos + width * j)
  }

  /** The first k fields of a data item that starts at `pos`. */
  function Fields(c: Context, i: nat, width: nat, values: seq<DataItem>, pos: nat, k: nat): (r: Result<Piece, EmitError>)
    requires width <= 8 && k <= |values|
    ensures r.Ok? ==> |r.value.bytes| == width * k
  {
    if k == 0 then Ok(Piece([], []))
    else
      var before := Fields(c, i, width, values, pos, k - 1);
      if before.Err? then before
      else
        var field := FieldAt(c, i, width, values, pos, k - 1);
        if field.Err? then field
        else
          WidthStep(width, k);
          Ok(Join(before.value, field.value))
  }

  // ---- whole items -----------------------------------------------------------------------

  function ShiftRelocs(relocs: seq<Reloc>, base: nat): (r: seq<Reloc>)
    ensures |r| == |relocs|
    ensures forall k :: 0 <= k < |r| ==> r[k] == relocs[k].(offset := base + relocs[k].offset)
  {
    seq(|relocs|, k requires 0 <= k < |relocs| => relocs[k].(offset := base + relocs[k].offset))
  }

  function LongOpcode(kind: BranchKind): seq<byte> {
    match kind
    case Jmp => [0xe9]
    case Jcc(cc) => [0x0f, 0x80 + cc]
  }

  function ShortOpcode(kind: BranchKind): seq<byte> {
    match kind
    case Jmp => [0xeb]
    case Jcc(cc) => [0x70 + cc]
  }

  /** Bytes written only into sections that occupy file space. */
  function Stored(c: Context, bytes: seq<byte>): seq<byte> {
    if c.isBss then [] else bytes
  }

  function BranchPiece(c: Context, i: nat, kind: BranchKind, target: string): (r: Result<Piece, EmitError>)
    requires WellFormed(c.sb) && |c.long| == |c.sb.items| && i < |c.sb.items|
  {
    var here := Pos(c, i);
    if IsLocalBranch(c.sb, c.weak, target) then
      var disp := LabelOffset(c, target) - (here + BranchLen(kind, c.long[i]));
      if c.long[i] then
        if IsI32(disp) then Ok(Piece(Stored(c, LongOpcode(kind) + LE(disp, 4)), [])) else Err(LongBranchRange(i))
      else
        if IsI8(disp) then Ok(Piece(Stored(c, ShortOpcode(kind) + LE(disp, 1)), [])) else Err(ShortBranchRange(i))
    else
      var head := LongOpcode(kind);
      if here + |head| > U32_MAX then Err(RelocationOffset(i))
      else Ok(Piece(Stored(c, head + LE(0, 4)), [Reloc(here + |head|, target, R_X86_64_PLT32, -4)]))
  }

  function AlignBytes(c: Context, pad: nat, fill: Option<byte>): (bs: seq<byte>)
    ensures |bs| == pad
  {
    if fill.Some? then Repeated(fill.value, pad)
    else if c.isText then NopFill(pad)
    else Repeated(0, pad)
  }

  function ItemPiece(c: Context, i: nat): Result<Piece, EmitError>
    requires Valid(c) && i < |c.sb.items|
  {
    var pos := Pos(c, i);
    match c.sb.items[i]
    case Bytes(b, relocs) =>
      if pos > U32_MAX || exists k :: 0 <= k < |relocs| && pos + relocs[k].offset > U32_MAX then Err(RelocationOffset(i))
      else Ok(Piece(Stored(c, b), ShiftRelocs(relocs, pos)))
    case Data(width, values) => Fields(c, i, width, values, pos, |values|)
    case Zero(n) => Ok(Piece(Stored(c, Repeated(0, n)), []))
    case Fill(n, b) => Ok(Piece(Stored(c, Repeated(b, n)), []))
    case Branch(kind, target) => BranchPiece(c, i, kind, target)
    case Align(pow, fill, maxSkip) => Ok(Piece(Stored(c, AlignBytes(c, AlignPad(pos, pow, maxSkip), fill)), []))
    case SizeDot(_) => Ok(Piece([], []))
  }

  /** The first i items, or the first error among them. */
  function Image(c: Context, i: nat): Result<Piece, EmitError>
    requires Valid(c) && i <= |c.sb.items|
  {
    if i == 0 then Ok(Piece([], []))
    else
      var before := Image(c, i - 1);
      if before.Err? then before
      else
        var piece := ItemPiece(c, i - 1);
        if piece.Err? then piece else Ok(Join(before.value, piece.value))
  }

  /** Position of the last `.size sym, .-base` among the first i items. */
  function SizeDots(c: Context, i: nat): map<string, nat>
    requires |c.long| == |c.sb.items| && i <= |c.sb.items|
  {
    if i == 0 then map[]
    else
      var before := SizeDots(c, i - 1);
      if c.sb.items[i - 1].SizeDot? then before[c.sb.items[i - 1].sym := Pos(c, i - 1)] else before
  }

  // ---- the emission loop -------------------------------------------------------------------

  method EmitData(c: Context, i: nat, width: nat, values: seq<DataItem>, start: nat)
    returns (r: Result<Piece, EmitError>, pos: nat)
    requires width <= 8
    ensures r == Fields(c, i, width, values, start, |values|)
    ensures r.Ok? ==> pos == start + width * |values|
  {
    hide Field;
    var out := Piece([], []);
    pos := start;
    var k := 0;
    while k < |values|
      invariant 0 <= k <= |values| && pos == start + width * k
      invariant Fields(c, i, width, values, start, k) == Ok(out)
    {
      var field := Field(c, i, width, values[k], pos);
      if field.Err? {
        FieldsFail(c, i, width, values, start, k + 1, |values|);
        return field, pos;
      }
      out := Join(out, field.value);
      pos := pos + width;
      k := k + 1;
    }
    return Ok(out), pos;
  }

  lemma {:induction false} FieldsFail(c: Context, i: nat, width: nat, values: seq<DataItem>, pos: nat, j: nat, k: nat)
    requires width <= 8 && j <= k <= |values| && Fields(c, i, width, values, pos, j).Err?
    ensures Fields(c, i, width, values, pos, k) == Fields(c, i, width, values, pos, j)
    decreases k - j
  {
    if j < k {
      FieldsFail(c, i, width, values, pos, j, k - 1);
    }
  }

  lemma {:induction false} ImageFails(c: Context, j: nat, i: nat)
    requires Valid(c) && j <= i <= |c.sb.items| && Image(c, j).Err?
    ensures Image(c, i) == Image(c, j)
    decreases i - j
  {
    hide Valid, ItemPiece;
    if j < i {
      ImageFails(c, j, i - 1);
    }
  }

  /** Implicit text NOPs, as byte ranges of the image: provenance for disassemblers. */
  function NopRanges(c: Context, i: nat): seq<(nat, nat)>
    requires Valid(c) && i <= |c.sb.items|
  {
    if i == 0 then []
    else
      var before := NopRanges(c, i - 1);
      match c.sb.items[i - 1]
      case Align(pow, fill, maxSkip) =>
        var pad := AlignPad(Pos(c, i - 1), pow, maxSkip);
        if !c.isBss && c.isText && fill.None? && pad > 0 && Image(c, i - 1).Ok? then
          var start := |Image(c, i - 1).value.bytes|;
          before + [(start, start + pad)]
        else before
      case _ => before
  }

  method EmitBranch(c: Context, i: nat, kind: BranchKind, target: string, pos: nat)
    returns (r: Result<Piece, EmitError>, end: nat)
    requires WellFormed(c.sb) && |c.long| == |c.sb.items| && i < |c.sb.items| && pos == Pos(c, i)
    ensures r == BranchPiece(c, i, kind, target)
    ensures end == pos + BranchLen(kind, !IsLocalBranch(c.sb, c.weak, target) || c.long[i])
  {
    hide Off;
    var local := IsLocalBranch(c.sb, c.weak, target);
    end := pos + BranchLen(kind, !local || c.long[i]);
    if local {
      var disp := LabelOffset(c, target) - end;
      if c.long[i] {
        if !IsI32(disp) {
          return Err(LongBranchRange(i)), end;
        }
        r := Ok(Piece(if c.isBss then [] else LongOpcode(kind) + LE(disp, 4), []));
      } else {
        if !IsI8(disp) {
          return Err(ShortBranchRange(i)), end;
        }
        r := Ok(Piece(if c.isBss then [] else ShortOpcode(kind) + LE(disp, 1), []));
      }
    } else {
      var head := LongOpcode(kind);
      if pos + |head| > U32_MAX {
        return Err(RelocationOffset(i)), end;
      }
      r := Ok(Piece(if c.isBss then [] else head + LE(0, 4), [Reloc(pos + |head|, target, R_X86_64_PLT32, -4)]));
    }
  }

  /** Walk the items once more, appending bytes and relocations and moving `pos`. */
  method Materialize(c: Context)
    returns (r: Result<Piece, EmitError>, size: nat, sizeDot: map<string, nat>, nops: seq<(nat, nat)>)
    requires Valid(c)
    ensures r == Image(c, |c.sb.items|)
    ensures r.Ok? ==> size == Pos(c, |c.sb.items|)
    ensures r.Ok? ==> sizeDot == SizeDots(c, |c.sb.items|)
    ensures r.Ok? ==> nops == NopRanges(c, |c.sb.items|)
  {
    var bytes: seq<byte>, relocs: seq<Reloc> := [], [];
    size, sizeDot, nops := 0, map[], [];
    var i := 0;
    while i < |c.sb.items|
      invariant 0 <= i <= |c.sb.items| && size == Pos(c, i)
      invariant Image(c, i) == Ok(Piece(bytes, relocs))
      invariant sizeDot == SizeDots(c, i) && nops == NopRanges(c, i)
    {
      var piece, end := EmitItem(c, i, size);
      if piece.Err? {
        ImageFails(c, i + 1, |c.sb.items|);
        return piece, size, sizeDot, nops;
      }
      sizeDot := NoteSizeDot(c, i, size, sizeDot);
      nops := NoteNops(c, i, |bytes|, |piece.value.bytes|, nops);
      bytes, relocs := bytes + piece.value.bytes, relocs + piece.value.relocs;
      size := end;
      i := i + 1;
    }
    return Ok(Piece(bytes, relocs)), size, sizeDot, nops;
  }

  method NoteSizeDot(c: Context, i: nat, pos: nat, sizeDot: map<string, nat>) returns (r: map<string, nat>)
    requires |c.long| == |c.sb.items| && i < |c.sb.items| && pos == Pos(c, i) && sizeDot == SizeDots(c, i)
    ensures r == SizeDots(c, i + 1)
  {
    r := if c.sb.items[i].SizeDot? then sizeDot[c.sb.items[i].sym := pos] else sizeDot;
  }

  lemma PadLength(c: Context, i: nat)
    requires Valid(c) && i < |c.sb.items| && c.sb.items[i].Align? && !c.isBss
    ensures ItemPiece(c, i).Ok?
    ensures |ItemPiece(c, i).value.bytes| == AlignPad(Pos(c, i), c.sb.items[i].pow, c.sb.items[i].maxSkip)
  {
  }

  method NoteNops(c: Context, i: nat, start: nat, len: nat, nops: seq<(nat, nat)>) returns (r: seq<(nat, nat)>)
    requires Valid(c) && i < |c.sb.items| && Image(c, i).Ok? && start == |Image(c, i).value.bytes|
    requires ItemPiece(c, i).Ok? && len == |ItemPiece(c, i).value.bytes| && nops == NopRanges(c, i)
    ensures r == NopRanges(c, i + 1)
  {
    hide ItemPiece;
    r := nops;
    if c.sb.items[i].Align? && !c.isBss {
      PadLength(c, i);
      if c.isText && c.sb.items[i].fill.None? && len > 0 {
        r := nops + [(start, start + len)];
      }
    }
  }

  method EmitItem(c: Context, i: nat, pos: nat) returns (r: Result<Piece, EmitError>, end: nat)
    requires Valid(c) && i < |c.sb.items| && pos == Pos(c, i)
    ensures r == ItemPiece(c, i)
    ensures r.Ok? ==> end == Pos(c, i + 1)
  {
    match c.sb.items[i] {
      case Bytes(b, rs) =>
        end := pos + |b|;
        if pos > U32_MAX {
          return Err(RelocationOffset(i)), end;
        }
        var k := 0;
        while k < |rs|
          invariant 0 <= k <= |rs|
          invariant forall j :: 0 <= j < k ==> pos + rs[j].offset <= U32_MAX
        {
          if pos + rs[k].offset > U32_MAX {
            return Err(RelocationOffset(i)), end;
          }
          k := k + 1;
        }
        r := Ok(Piece(if c.isBss then [] else b, ShiftRelocs(rs, pos)));
      case Data(width, values) =>
        r, end := EmitData(c, i, width, values, pos);
      case Zero(n) =>
        r, end := Ok(Piece(if c.isBss then [] else Repeated(0, n), [])), pos + n;
      case Fill(n, b) =>
        r, end := Ok(Piece(if c.isBss then [] else Repeated(b, n), [])), pos + n;
      case Branch(kind, target) =>
        r, end := EmitBranch(c, i, kind, target, pos);
      case Align(pow, fill, maxSkip) =>
        var pad := AlignPad(pos, pow, maxSkip);
        end := pos + pad;
        var padding: seq<byte> := [];
        if !c.isBss {
          if fill.Some? {
            padding := Repeated(fill.value, pad);
          } else if c.isText {
            padding := FillNops([], pad);
            assert padding == NopFill(pad);
          } else {
            padding := Repeated(0, pad);
          }
        }
        r := Ok(Piece(padding, []));
      case SizeDot(_) =>
        r, end := Ok(Piece([], [])), pos;
    }
  }

  // ---- every item sits where the sizing walk put it ---------------------------------------------

  lemma PieceSize(c: Context, i: nat)
    requires Valid(c) && i < |c.sb.items| && !c.isBss && ItemPiece(c, i).Ok?
    ensures Pos(c, i) + |ItemPiece(c, i).value.bytes| == Pos(c, i + 1)
  {
  }

  lemma {:induction false} ImageSize(c: Context, i: nat)
    requires Valid(c) && i <= |c.sb.items| && !c.isBss && Image(c, i).Ok?
    ensures |Image(c, i).value.bytes| == Pos(c, i)
  {
    if i > 0 {
      ImageSize(c, i - 1);
      PieceSize(c, i - 1);
    }
  }

  /** Item i occupies exactly the bytes between its walk offset and the next one, and keeps its relocations. */
  lemma {:induction false} ItemAtOffset(c: Context, i: nat, n: nat)
    requires Valid(c) && i < n <= |c.sb.items| && !c.isBss && Image(c, n).Ok?
    ensures ItemPiece(c, i).Ok?
    ensures Pos(c, i) + |ItemPiece(c, i).value.bytes| == Pos(c, i + 1)
    ensures SliceAt(Image(c, n).value.bytes, Pos(c, i), ItemPiece(c, i).value.bytes)
    ensures forall r <- ItemPiece(c, i).value.relocs :: r in Image(c, n).value.relocs
    decreases n - i
  {
    hide ItemPiece;
    var last := n - 1;
    var before, piece := Image(c, last).value, ItemPiece(c, last).value;
    assert Image(c, n).value == Join(before, piece);
    if i < last {
      ItemAtOffset(c, i, last);
      SliceKept(before.bytes, piece.bytes, Pos(c, i), ItemPiece(c, i).value.bytes);
    } else {
      ImageSize(c, last);
      PieceSize(c, i);
    }
  }

  /** No relocation appears that no item asked for. */
  lemma {:induction false} RelocsFromItems(c: Context, n: nat, r: Reloc) returns (i: nat)
    requires Valid(c) && n <= |c.sb.items| && Image(c, n).Ok? && r in Image(c, n).value.relocs
    ensures i < n && ItemPiece(c, i).Ok? && r in ItemPiece(c, i).value.relocs
  {
    if r in ItemPiece(c, n - 1).value.relocs {
      i := n - 1;
    } else {
      i := RelocsFromItems(c, n - 1, r);
    }
  }

  /** The "relaxed branch displacement exceeds i8" error cannot happen after relaxation. */
  lemma {:induction false} ShortBranchesAlwaysFit(c: Context, n: nat)
    requires Valid(c) && n <= |c.sb.items|
    ensures Image(c, n).Err? ==> !Image(c, n).error.ShortBranchRange?
  {
    hide Valid, ItemPiece;
    if n > 0 {
      ShortBranchesAlwaysFit(c, n - 1);
      ShortBranchFits(c, n - 1);
    }
  }

  lemma ShortBranchFits(c: Context, i: nat)
    requires Valid(c) && i < |c.sb.items|
    ensures ItemPiece(c, i).Err? ==> !ItemPiece(c, i).error.ShortBranchRange?
  {
    match c.sb.items[i]
    case Data(width, values) => FieldErrors(c, i, width, values, Pos(c, i), |values|);
    case Branch(kind, target) =>
      if IsLocalBranch(c.sb, c.weak, target) && !c.long[i] {
        assert IsRelaxable(c.sb, c.weak, i);
        assert IsI8(ShortDisp(c.sb, c.weak, c.long, i));
      }
    case _ =>
  }

  lemma {:induction false} FieldErrors(c: Context, i: nat, width: nat, values: seq<DataItem>, pos: nat, k: nat)
    requires width <= 8 && k <= |values|
    ensures Fields(c, i, width, values, pos, k).Err? ==> !Fields(c, i, width, values, pos, k).error.ShortBranchRange?
  {
    if k > 0 {
      FieldErrors(c, i, width, values, pos, k - 1);
    }
  }

  // ---- decoding emitted branches -------------------------------------------------------------------

  /** A decoded near jump: its kind, its length and the offset it transfers control to. */
  datatype Jump = Jump(kind: BranchKind, length: nat, dest: int)

  /** The x86-64 decoder for the four near-jump encodings. */
  function DecodeJump(code: seq<byte>, at: nat): Option<Jump>
    requires at <= |code|
  {
    var c := code[at..];
    if |c| >= 2 && c[0] == 0xeb then
      Some(Jump(Jmp, 2, at + 2 + Signed(FromLE(c[1..2]), 0x100)))
    else if |c| >= 2 && 0x70 <= c[0] < 0x80 then
      Some(Jump(Jcc(c[0] - 0x70), 2, at + 2 + Signed(FromLE(c[1..2]), 0x100)))
    else if |c| >= 5 && c[0] == 0xe9 then
      Some(Jump(Jmp, 5, at + 5 + Signed(FromLE(c[1..5]), 0x1_0000_0000)))
    else if |c| >= 6 && c[0] == 0x0f && 0x80 <= c[1] < 0x90 then
      Some(Jump(Jcc(c[1] - 0x80), 6, at + 6 + Signed(FromLE(c[2..6]), 0x1_0000_0000)))
    else None
  }

  lemma DecodeShort(code: seq<byte>, at: nat, kind: BranchKind, disp: int)
    requires IsI8(disp) && at + 2 <= |code| && code[at..at + 2] == ShortOpcode(kind) + LE(disp, 1)
    ensures DecodeJump(code, at) == Some(Jump(kind, 2, at + 2 + disp))
  {
    Pow256Values();
    var c, piece := code[at..], code[at..at + 2];
    assert c[0] == piece[0] && c[1] == piece[1];
    assert c[1..2] == LE(disp, 1);
    SignedRoundTrip(disp, 1);
  }

  lemma DecodeLong(code: seq<byte>, at: nat, kind: BranchKind, disp: int)
    requires IsI32(disp) && at + BranchLen(kind, true) <= |code|
    requires code[at..at + BranchLen(kind, true)] == LongOpcode(kind) + LE(disp, 4)
    ensures DecodeJump(code, at) == Some(Jump(kind, BranchLen(kind, true), at + BranchLen(kind, true) + disp))
  {
    hide LE, FromLE, Pow256, Signed;
    Pow256Values();
    var len := BranchLen(kind, true);
    var c, piece := code[at..], code[at..at + len];
    assert forall k :: 0 <= k < len ==> c[k] == piece[k];
    assert piece[len - 4..] == LE(disp, 4);
    assert c[len - 4..len] == LE(disp, 4);
    SignedRoundTrip(disp, 4);
    assert Signed(FromLE(c[len - 4..len]), 0x1_0000_0000) == disp;
  }

  /** How far a branch at its own place must reach: to its label, or nowhere yet when the linker decides. */
  function Reach(c: Context, i: nat, target: string, len: nat): int
    requires WellFormed(c.sb) && |c.long| == |c.sb.items| && i < |c.sb.items|
  {
    if IsLocalBranch(c.sb, c.weak, target) then LabelOffset(c, target) - Pos(c, i) - len else 0
  }

  /** The displacement of a local branch fits its form; the field of any other lies where a relocation can say so. */
  predicate Reachable(c: Context, i: nat, target: string, len: nat)
    requires WellFormed(c.sb) && |c.long| == |c.sb.items| && i < |c.sb.items|
  {
    if !IsLocalBranch(c.sb, c.weak, target) then Pos(c, i) + len - 4 <= U32_MAX
    else if c.long[i] then IsI32(Reach(c, i, target, len))
    else IsI8(Reach(c, i, target, len))
  }

  /**
    A written branch decodes as one jump of its kind that ends with the bytes: to its label when the label
    is local, else to the instruction behind it with the displacement left to one relocation whose addend
    makes up for the four bytes between field and end. It is refused exactly when it cannot reach.
   */
  lemma BranchDecodes(c: Context, i: nat, kind: BranchKind, target: string)
    requires WellFormed(c.sb) && |c.long| == |c.sb.items| && i < |c.sb.items| && !c.isBss
    ensures var r, local := BranchPiece(c, i, kind, target), IsLocalBranch(c.sb, c.weak, target);
            var len := BranchLen(kind, !local || c.long[i]);
            && (r.Ok? <==> Reachable(c, i, target, len))
            && (r.Ok? ==>
                  && DecodeJump(r.value.bytes, 0) == Some(Jump(kind, len, len + Reach(c, i, target, len)))
                  && |r.value.bytes| == len
                  && r.value.relocs == if local then [] else [Reloc(Pos(c, i) + len - 4, target, R_X86_64_PLT32, -4)])
  {
    hide Off, LE, DecodeJump;
    var r, local := BranchPiece(c, i, kind, target), IsLocalBranch(c.sb, c.weak, target);
    var len := BranchLen(kind, !local || c.long[i]);
    if r.Ok? {
      var code, disp := r.value.bytes, Reach(c, i, target, len);
      assert code[0..len] == code;
      if local && !c.long[i] {
        DecodeShort(code, 0, kind, disp);
      } else {
        DecodeLong(code, 0, kind, disp);
      }
    }
  }

  /** Decoding at `at` yields a jump of this kind that ends at `end` and goes to `dest`. */
  predicate LandsOn(code: seq<byte>, at: nat, end: nat, kind: BranchKind, dest: nat) {
    at <= end && at <= |code| && DecodeJump(code, at) == Some(Jump(kind, end - at, dest))
  }

  /** Decoding the code at a local branch lands on the final offset of its label. */
  lemma BranchLandsOnLabel(c: Context, i: nat)
    requires Valid(c) && !c.isBss && Image(c, |c.sb.items|).Ok?
    requires i < |c.sb.items| && IsRelaxable(c.sb, c.weak, i)
    ensures LandsOn(Image(c, |c.sb.items|).value.bytes, Pos(c, i), Pos(c, i + 1),
                    c.sb.items[i].kind, LabelOffset(c, c.sb.items[i].target))
  {
    var code := BranchBytes(c, i);
    DecodeSlice(code, Pos(c, i), Pos(c, i + 1), c.sb.items[i].kind, c.long[i], LabelOffset(c, c.sb.items[i].target));
  }

  lemma BranchBytes(c: Context, i: nat) returns (code: seq<byte>)
    requires Valid(c) && !c.isBss && Image(c, |c.sb.items|).Ok?
    requires i < |c.sb.items| && IsRelaxable(c.sb, c.weak, i)
    ensures code == Image(c, |c.sb.items|).value.bytes
    ensures IsJump(code, Pos(c, i), Pos(c, i + 1), c.sb.items[i].kind, c.long[i], LabelOffset(c, c.sb.items[i].target))
  {
    hide ItemPiece, Image;
    code := Image(c, |c.sb.items|).value.bytes;
    ItemAtOffset(c, i, |c.sb.items|);
    BranchPieceOf(c, i);
  }

  /** The bytes between `at` and `end` are the encoding of a jump to `dest`. */
  predicate IsJump(code: seq<byte>, at: nat, end: nat, kind: BranchKind, isLong: bool, dest: nat) {
    && at <= end <= |code| && end == at + BranchLen(kind, isLong)
    && (if isLong then IsI32(dest - end) else IsI8(dest - end))
    && code[at..end] == if isLong then LongOpcode(kind) + LE(dest - end, 4) else ShortOpcode(kind) + LE(dest - end, 1)
  }

  lemma DecodeSlice(code: seq<byte>, at: nat, end: nat, kind: BranchKind, isLong: bool, dest: nat)
    requires IsJump(code, at, end, kind, isLong, dest)
    ensures LandsOn(code, at, end, kind, dest)
  {
    hide DecodeJump, LE, LongOpcode, ShortOpcode;
    if isLong {
      DecodeLong(code, at, kind, dest - end);
    } else {
      DecodeShort(code, at, kind, dest - end);
    }
  }

  lemma BranchPieceOf(c: Context, i: nat)
    requires Valid(c) && !c.isBss && i < |c.sb.items| && IsRelaxable(c.sb, c.weak, i) && ItemPiece(c, i).Ok?
    ensures var Branch(kind, target) := c.sb.items[i];
            var disp := LabelOffset(c, target) - Pos(c, i + 1);
            && Pos(c, i + 1) == Pos(c, i) + BranchLen(kind, c.long[i])
            && ItemPiece(c, i).value.bytes ==
                 (if c.long[i] then LongOpcode(kind) + LE(disp, 4) else ShortOpcode(kind) + LE(disp, 1))
            && (if c.long[i] then IsI32(disp) else IsI8(disp))
  {
    hide LE, LongOpcode, ShortOpcode, Image, Fields, ShortDisp, WalkError;
    BranchSize(c, i);
    assert ItemPiece(c, i) == BranchPiece(c, i, c.sb.items[i].kind, c.sb.items[i].target);
  }

  lemma BranchSize(c: Context, i: nat)
    requires |c.long| == |c.sb.items| && i < |c.sb.items| && IsRelaxable(c.sb, c.weak, i)
    ensures Pos(c, i + 1) == Pos(c, i) + BranchLen(c.sb.items[i].kind, c.long[i])
  {
  }
}
