/**
  End to end for one x86-64 section: what the source wrote in a data field or as a branch target
  is what the linked, folded object holds, for every link.
 */
module X86Meaning {
  import opened Words
  import opened X86Layout
  import opened X86Materialize
  import opened X86Fold

  /** What the instruction encoder promises: relocated fields lie inside the instruction and do not overlap. */
  ghost predicate EncoderOk(sb: SecBuild) {
    forall i :: 0 <= i < |sb.items| && sb.items[i].Bytes? ==>
      InBounds(sb.items[i].relocs, |sb.items[i].bytes|) && Disjoint(sb.items[i].relocs)
  }

  // ---- relocated fields lie inside their items --------------------------------------------

  predicate Within(relocs: seq<Reloc>, lo: nat, hi: nat) {
    forall k :: 0 <= k < |relocs| ==> lo <= relocs[k].offset && relocs[k].offset + FieldWidth(relocs[k].rType) <= hi
  }

  lemma DisjointJoin(a: seq<Reloc>, b: seq<Reloc>, lo: nat, mid: nat, hi: nat)
    requires Disjoint(a) && Disjoint(b) && Within(a, lo, mid) && Within(b, mid, hi) && lo <= mid <= hi
    ensures Disjoint(a + b) && Within(a + b, lo, hi)
  {
  }

  lemma FieldWithin(c: Context, i: nat, width: nat, d: DataItem, fieldPos: nat)
    requires width <= 8 && Field(c, i, width, d, fieldPos).Ok?
    ensures var relocs := Field(c, i, width, d, fieldPos).value.relocs;
            && Within(relocs, fieldPos, fieldPos + width) && Disjoint(relocs)
            && (forall r <- relocs :: r.offset == fieldPos && FieldWidth(r.rType) == width && IsSupported(r.rType))
  {
  }

  lemma {:induction false} FieldsWithin(c: Context, i: nat, width: nat, values: seq<DataItem>, pos: nat, k: nat)
    requires width <= 8 && k <= |values| && Fields(c, i, width, values, pos, k).Ok?
    ensures var relocs := Fields(c, i, width, values, pos, k).value.relocs;
            Within(relocs, pos, pos + width * k) && Disjoint(relocs)
  {
    if k > 0 {
      FieldsWithin(c, i, width, values, pos, k - 1);
      var fieldPos := pos + width * (k - 1);
      FieldWithin(c, i, width, values[k - 1], fieldPos);
      DisjointJoin(Fields(c, i, width, values, pos, k - 1).value.relocs, Field(c, i, width, values[k - 1], fieldPos).value.relocs,
                   pos, fieldPos, pos + width * k);
    }
  }

  lemma ShiftedWithin(relocs: seq<Reloc>, size: nat, pos: nat)
    requires InBounds(relocs, size) && Disjoint(relocs)
    ensures Within(ShiftRelocs(relocs, pos), pos, pos + size) && Disjoint(ShiftRelocs(relocs, pos))
  {
    forall j, k | 0 <= j < k < |relocs| ensures Apart(ShiftRelocs(relocs, pos)[j], ShiftRelocs(relocs, pos)[k]) {
      assert Apart(relocs[j], relocs[k]);
    }
  }

  lemma BranchWithin(c: Context, i: nat)
    requires Valid(c) && i < |c.sb.items| && c.sb.items[i].Branch?
    requires BranchPiece(c, i, c.sb.items[i].kind, c.sb.items[i].target).Ok?
    ensures var relocs := BranchPiece(c, i, c.sb.items[i].kind, c.sb.items[i].target).value.relocs;
            Within(relocs, Pos(c, i), Pos(c, i + 1)) && Disjoint(relocs)
  {
    hide WellFormed, ValidSizing, LE;
  }

  lemma PieceWithin(c: Context, i: nat)
    requires Valid(c) && EncoderOk(c.sb) && i < |c.sb.items| && ItemPiece(c, i).Ok?
    ensures Within(ItemPiece(c, i).value.relocs, Pos(c, i), Pos(c, i + 1)) && Disjoint(ItemPiece(c, i).value.relocs)
  {
    hide Fields, Off, Within, Disjoint, InBounds, ShiftRelocs, BranchPiece, AlignBytes, AlignPad, Stored;
    OffNext(c.sb, c.weak, c.long, i);
    NothingWithin(Pos(c, i), Pos(c, i + 1));
    match c.sb.items[i]
    case Bytes(b, relocs) => ShiftedWithin(relocs, |b|, Pos(c, i));
    case Data(width, values) => FieldsWithin(c, i, width, values, Pos(c, i), |values|);
    case Branch(_, _) => BranchWithin(c, i);
    case _ =>
  }

  lemma NothingWithin(lo: nat, hi: nat)
    ensures Within([], lo, hi) && Disjoint([])
  {
  }

  /** Pending relocations of a whole section are disjoint fields inside it. */
  lemma {:induction false} ImageWithin(c: Context, n: nat)
    requires Valid(c) && EncoderOk(c.sb) && n <= |c.sb.items| && Image(c, n).Ok?
    ensures Within(Image(c, n).value.relocs, 0, Pos(c, n)) && Disjoint(Image(c, n).value.relocs)
  {
    if n > 0 {
      ImageWithin(c, n - 1);
      PieceWithin(c, n - 1);
      OffMonotone(c.sb, c.weak, c.long, n - 1, n);
      DisjointJoin(Image(c, n - 1).value.relocs, ItemPiece(c, n - 1).value.relocs, 0, Pos(c, n - 1), Pos(c, n));
    }
  }

  /** The emitted image satisfies everything the folding loop asks of its input. */
  lemma ImageFoldable(c: Context)
    requires Valid(c) && EncoderOk(c.sb) && Image(c, |c.sb.items|).Ok?
    ensures Disjoint(Image(c, |c.sb.items|).value.relocs)
    ensures !c.isBss ==> InBounds(Image(c, |c.sb.items|).value.relocs, |Image(c, |c.sb.items|).value.bytes|)
  {
    ImageWithin(c, |c.sb.items|);
    if !c.isBss {
      ImageSize(c, |c.sb.items|);
    }
  }

  // ---- the meaning of a data field ------------------------------------------------------------

  function AtomAddress(d: Definitions, link: Link, section: nat, atom: DataAtom, fieldPos: nat): int {
    match atom
    case Dot => link.base(section) + fieldPos
    case Sym(name) => NameAddress(d, link, name)
  }

  /** The value the source asks for in a data field at `fieldPos`. */
  function DataMeaning(d: Definitions, link: Link, section: nat, item: DataItem, fieldPos: nat): int {
    match item
    case Num(value) => value
    case SymRef(name, addend) => NameAddress(d, link, name) + addend
    case Difference(m, s, addend) =>
      AtomAddress(d, link, section, m, fieldPos) - AtomAddress(d, link, section, s, fieldPos) + addend
  }

  /** The offsets folding uses are the ones the labels really have. */
  ghost predicate Agrees(c: Context, d: Definitions) {
    forall l <- c.resolved :: l in d.labels && d.labels[l] == c.resolved[l]
  }

  lemma AtomAgrees(c: Context, d: Definitions, link: Link, atom: DataAtom, fieldPos: nat)
    requires Agrees(c, d) && AtomValue(c, atom, fieldPos).Some?
    ensures var (s, off) := AtomValue(c, atom, fieldPos).value;
            AtomAddress(d, link, c.index, atom, fieldPos) == link.base(s) + off
  {
  }

  predicate Congruent(x: int, y: int, m: nat)
    requires m > 0
  {
    x % m == y % m
  }

  lemma CongruentChain(x: int, y: int, z: int, m: nat)
    requires m > 0 && Congruent(x, y, m) && Congruent(y, z, m)
    ensures Congruent(x, z, m)
  {
  }

  lemma CongruentDifference(x: int, y: int, a: int, b: int, addend: int, m: nat)
    requires m > 0 && Congruent(x, a, m) && Congruent(y, b, m)
    ensures Congruent(x - y + addend, a - b + addend, m)
  {
    var ka := ModEqualDifference(x, a, m);
    var kb := ModEqualDifference(y, b, m);
    assert x - y + addend == (a - b + addend) + (ka - kb) * m by {
      assert (ka - kb) * m == ka * m - kb * m;
    }
    ModAddMultiple(a - b + addend, ka - kb, m);
  }

  lemma {:induction false} WrappedCongruent(x: int, width: nat)
    requires width <= 8
    ensures Congruent(WrapI64(x), x, Pow256(width))
  {
    WrapI64Congruent(x, width);
  }

  lemma {:induction false} WrappedTwice(off: int, addend: int, width: nat)
    requires width <= 8
    ensures Congruent(WrapI64(WrapI64(off) + addend), off + addend, Pow256(width))
  {
    hide WrapI64, Pow256;
    FoldedAddend(off, addend, 0, width);
    assert 0 + WrapI64(WrapI64(off) + addend) == WrapI64(WrapI64(off) + addend) && 0 + off + addend == off + addend;
  }

  /** Wrapping 64-bit arithmetic on two offsets and an addend is exact modulo the field width. */
  lemma {:induction false} WrappedDifferenceExact(a: nat, b: nat, addend: int, width: nat)
    requires width <= 8
    ensures Congruent(WrappedDifference(a, b, addend), a - b + addend, Pow256(width))
  {
    hide WrapI64, Pow256, Congruent;
    var x, y, m := WrapI64(a), WrapI64(b), Pow256(width);
    WrappedCongruent(a, width);
    WrappedCongruent(b, width);
    CongruentDifference(x, y, a, b, addend, m);
    var off, w := x - y, WrappedDifference(a, b, addend);
    WrappedTwice(off, addend, width);
    assert w == WrapI64(WrapI64(off) + addend);
    var d, e := off + addend, a - b + addend;
    assert Congruent(w, d, m) && Congruent(d, e, m);
    CongruentChain(w, d, e, m);
  }

  /** A field is either stored with its meaning, or relocated by something that means the same. */
  lemma {:induction false} FieldMeaning(c: Context, i: nat, width: nat, item: DataItem, fieldPos: nat, d: Definitions, link: Link)
    requires width <= 8 && Agrees(c, d) && Field(c, i, width, item, fieldPos).Ok?
    ensures var piece := Field(c, i, width, item, fieldPos).value;
            var meaning := DataMeaning(d, link, c.index, item, fieldPos) % Pow256(width);
            if piece.relocs == [] then FromLE(piece.bytes) == meaning
            else |piece.relocs| == 1 && Wanted(d, link, c.index, piece.relocs[0]) % Pow256(width) == meaning
  {
    match item
    case Num(value) => FieldRoundTrip(value, width);
    case SymRef(name, addend) =>
    case Difference(m, s, addend) => DifferenceMeaning(c, i, width, m, s, addend, fieldPos, d, link);
  }

  lemma {:induction false} DifferenceMeaning(c: Context, i: nat, width: nat, m: DataAtom, s: DataAtom, addend: int, fieldPos: nat,
                          d: Definitions, link: Link)
    requires width <= 8 && Agrees(c, d) && Field(c, i, width, Difference(m, s, addend), fieldPos).Ok?
    ensures var piece := Field(c, i, width, Difference(m, s, addend), fieldPos).value;
            var meaning := DataMeaning(d, link, c.index, Difference(m, s, addend), fieldPos) % Pow256(width);
            if piece.relocs == [] then FromLE(piece.bytes) == meaning
            else |piece.relocs| == 1 && Wanted(d, link, c.index, piece.relocs[0]) % Pow256(width) == meaning
  {
    hide Pow256, LE, FromLE, WrappedDifference;
    var lhs, rhs := AtomValue(c, m, fieldPos), AtomValue(c, s, fieldPos);
    if lhs.Some? && rhs.Some? && lhs.value.0 == rhs.value.0 {
      FoldedDifferenceMeaning(c, m, s, addend, width, fieldPos, d, link);
    } else {
      AtomAgrees(c, d, link, s, fieldPos);
      RelocatedDifference(NameAddress(d, link, m.name), link.base(c.index), fieldPos, rhs.value.1, addend, width);
    }
  }

  lemma {:induction false} FoldedDifferenceMeaning(c: Context, m: DataAtom, s: DataAtom, addend: int, width: nat, fieldPos: nat,
                                d: Definitions, link: Link)
    requires width <= 8 && Agrees(c, d)
    requires AtomValue(c, m, fieldPos).Some? && AtomValue(c, s, fieldPos).Some?
    requires AtomValue(c, m, fieldPos).value.0 == AtomValue(c, s, fieldPos).value.0
    ensures var lhs, rhs := AtomValue(c, m, fieldPos).value.1, AtomValue(c, s, fieldPos).value.1;
            FromLE(LE(WrappedDifference(lhs, rhs, addend), width))
            == (AtomAddress(d, link, c.index, m, fieldPos) - AtomAddress(d, link, c.index, s, fieldPos) + addend) % Pow256(width)
  {
    var lhs, rhs := AtomValue(c, m, fieldPos).value.1, AtomValue(c, s, fieldPos).value.1;
    AtomAgrees(c, d, link, m, fieldPos);
    AtomAgrees(c, d, link, s, fieldPos);
    WrappedDifferenceExact(lhs, rhs, addend, width);
    FieldRoundTrip(WrappedDifference(lhs, rhs, addend), width);
  }

  /** S + (field - rhs + addend) - P is S minus the subtrahend's address, plus the addend. */
  lemma {:induction false} RelocatedDifference(s: int, base: int, fieldPos: nat, rhs: nat, addend: int, width: nat)
    requires width <= 8
    ensures (s + WrappedDifference(fieldPos, rhs, addend) - (base + fieldPos)) % Pow256(width)
            == (s - (base + rhs) + addend) % Pow256(width)
  {
    var m := Pow256(width);
    var wrapped := WrappedDifference(fieldPos, rhs, addend);
    WrappedDifferenceExact(fieldPos, rhs, addend, width);
    var k := ModEqualDifference(wrapped, fieldPos - rhs + addend, m);
    assert s + wrapped - (base + fieldPos) == (s - (base + rhs) + addend) + k * m;
    ModAddMultiple(s - (base + rhs) + addend, k, m);
  }

  // ---- the field inside the section -------------------------------------------------------------

  /** A piece's bytes stand at a position of another's, and its relocations are among the other's. */
  ghost predicate PartOf(part: Piece, whole: Piece, at: int) {
    at >= 0 && SliceAt(whole.bytes, at, part.bytes) && forall r <- part.relocs :: r in whole.relocs
  }

  lemma {:induction false} FieldInItem(c: Context, i: nat, width: nat, values: seq<DataItem>, pos: nat, j: nat, k: nat)
    requires width <= 8 && j < k <= |values| && Fields(c, i, width, values, pos, k).Ok?
    ensures FieldAt(c, i, width, values, pos, j).Ok?
    ensures PartOf(FieldAt(c, i, width, values, pos, j).value, Fields(c, i, width, values, pos, k).value, width * j)
    decreases k
  {
    hide FieldAt, Field;
    var before, last := Fields(c, i, width, values, pos, k - 1).value, FieldAt(c, i, width, values, pos, k - 1).value;
    if j < k - 1 {
      FieldInItem(c, i, width, values, pos, j, k - 1);
      SliceKept(before.bytes, last.bytes, width * j, FieldAt(c, i, width, values, pos, j).value.bytes);
    } else {
      SliceLast(before.bytes, last.bytes);
    }
  }

  lemma SliceLast<T>(before: seq<T>, last: seq<T>)
    ensures SliceAt(before + last, |before|, last)
  {
  }

  /** Relocations of a data item belong to its fields. */
  lemma {:induction false} RelocFromField(c: Context, i: nat, width: nat, values: seq<DataItem>, pos: nat, k: nat, r: Reloc)
    returns (j: nat)
    requires width <= 8 && k <= |values| && Fields(c, i, width, values, pos, k).Ok?
    requires r in Fields(c, i, width, values, pos, k).value.relocs
    ensures j < k && FieldAt(c, i, width, values, pos, j).Ok?
    ensures r in FieldAt(c, i, width, values, pos, j).value.relocs
  {
    if r in FieldAt(c, i, width, values, pos, k - 1).value.relocs {
      j := k - 1;
    } else {
      j := RelocFromField(c, i, width, values, pos, k - 1, r);
    }
  }

  lemma {:induction false} WidthSteps(width: nat, j: nat, k: nat)
    ensures j < k ==> width * j + width <= width * k
  {
    if j < k {
      assert width * k == width * j + width * (k - j);
      MulAtLeast(k - j, width);
    }
  }

  // ---- one field of one data item ------------------------------------------------------------------

  ghost predicate IsField(c: Context, i: nat, j: nat) {
    && Valid(c) && i < |c.sb.items| && c.sb.items[i].Data? && j < |c.sb.items[i].values|
    && ItemPiece(c, i).Ok?
  }

  ghost function FieldPos(c: Context, i: nat, j: nat): nat
    requires IsField(c, i, j)
  {
    FieldStart(Pos(c, i), c.sb.items[i].width, j)
  }

  function FieldStart(pos: nat, width: nat, j: nat): nat {
    pos + width * j
  }

  ghost function FieldResult(c: Context, i: nat, j: nat): Result<Piece, EmitError>
    requires IsField(c, i, j)
  {
    FieldAt(c, i, c.sb.items[i].width, c.sb.items[i].values, Pos(c, i), j)
  }

  /** A field of a data item: where its bytes and its relocation are. */
  lemma {:induction false} FieldPlaced(c: Context, i: nat, j: nat)
    requires IsField(c, i, j)
    ensures FieldResult(c, i, j).Ok?
    ensures PartOf(FieldResult(c, i, j).value, ItemPiece(c, i).value, c.sb.items[i].width * j)
  {
    hide Field, Fields, Off;
    var Data(width, values) := c.sb.items[i];
    FieldInItem(c, i, width, values, Pos(c, i), j, |values|);
  }

  lemma {:induction false} FieldInside(c: Context, i: nat, j: nat)
    requires IsField(c, i, j)
    ensures Pos(c, i) <= FieldPos(c, i, j) && FieldPos(c, i, j) + c.sb.items[i].width <= Pos(c, i + 1)
  {
    hide Pos, ItemPiece, Valid;
    FieldAsked(c, i);
    DataSize(c, i);
    var width, count := c.sb.items[i].width, |c.sb.items[i].values|;
    WidthSteps(width, j, count);
  }

  lemma FieldAsked(c: Context, i: nat)
    requires Valid(c)
    ensures |c.long| == |c.sb.items|
  {
  }

  lemma {:induction false} DataSize(c: Context, i: nat)
    requires |c.long| == |c.sb.items| && i < |c.sb.items| && c.sb.items[i].Data?
    ensures Pos(c, i + 1) == Pos(c, i) + c.sb.items[i].width * |c.sb.items[i].values|
  {
  }

  predicate Misses(r: Reloc, at: nat, width: nat) {
    r.offset + FieldWidth(r.rType) <= at || at + width <= r.offset
  }

  /** Relocations of other fields of the same item miss this field. */
  lemma SiblingsMiss(c: Context, i: nat, j: nat, r: Reloc)
    requires IsField(c, i, j) && FieldResult(c, i, j).Ok? && FieldResult(c, i, j).value.relocs == []
    requires r in ItemPiece(c, i).value.relocs
    ensures Misses(r, FieldPos(c, i, j), c.sb.items[i].width)
  {
    hide Fields, Field, Off;
    var Data(width, values) := c.sb.items[i];
    var m := RelocFromField(c, i, width, values, Pos(c, i), |values|, r);
    FieldWithin(c, i, width, values[m], Pos(c, i) + width * m);
    WidthSteps(width, Min(j, m), Max(j, m));
  }

  /** Relocations of other items miss it too. */
  lemma OthersMiss(c: Context, i: nat, j: nat, n: nat, r: Reloc)
    requires IsField(c, i, j) && EncoderOk(c.sb)
    requires n < |c.sb.items| && n != i && ItemPiece(c, n).Ok? && r in ItemPiece(c, n).value.relocs
    ensures Misses(r, FieldPos(c, i, j), c.sb.items[i].width)
  {
    hide ItemPiece, Image;
    PieceWithin(c, n);
    var k :| 0 <= k < |ItemPiece(c, n).value.relocs| && ItemPiece(c, n).value.relocs[k] == r;
    FieldInside(c, i, j);
    if n < i {
      OffMonotone(c.sb, c.weak, c.long, n + 1, i);
    } else {
      OffMonotone(c.sb, c.weak, c.long, i + 1, n);
    }
  }

  /** A field without a relocation of its own is not touched by any relocation of the section. */
  lemma PlainFieldUntouched(c: Context, i: nat, j: nat, r: Reloc)
    requires IsField(c, i, j) && EncoderOk(c.sb) && Image(c, |c.sb.items|).Ok?
    requires FieldResult(c, i, j).Ok? && FieldResult(c, i, j).value.relocs == []
    requires r in Image(c, |c.sb.items|).value.relocs
    ensures Misses(r, FieldPos(c, i, j), c.sb.items[i].width)
  {
    var n := RelocsFromItems(c, |c.sb.items|, r);
    if n == i {
      SiblingsMiss(c, i, j, r);
    } else {
      OthersMiss(c, i, j, n, r);
    }
  }

  /** The final section: image bytes with every pending reference settled and nothing else changed. */
  ghost predicate Folded(c: Context, d: Definitions, data: seq<byte>, relas: seq<Rela>, symbols: seq<Symbol>) {
    && Valid(c) && EncoderOk(c.sb) && !c.isBss && Agrees(c, d)
    && Image(c, |c.sb.items|).Ok?
    && var Piece(bytes, relocs) := Image(c, |c.sb.items|).value;
       && SectionSettled(d, data, relas, symbols, c.index, relocs, |relocs|)
       && KeptOutside(bytes, data, relocs, |relocs|)
       && forall m :: 0 <= m < |relas| ==> relas[m].symbol < |symbols|
  }

  /** Bytes and relocations of the whole section at one field. */
  lemma {:induction false} FieldInImage(c: Context, i: nat, j: nat)
    requires IsField(c, i, j) && !c.isBss && Image(c, |c.sb.items|).Ok?
    ensures FieldResult(c, i, j).Ok?
    ensures SliceAt(Image(c, |c.sb.items|).value.bytes, FieldPos(c, i, j), FieldResult(c, i, j).value.bytes)
    ensures forall r <- FieldResult(c, i, j).value.relocs :: r in Image(c, |c.sb.items|).value.relocs
  {
    hide ItemPiece; hide Image;
    ItemAtOffset(c, i, |c.sb.items|);
    FieldPlaced(c, i, j);
    SliceInside(Image(c, |c.sb.items|).value.bytes, Pos(c, i), ItemPiece(c, i).value.bytes,
                c.sb.items[i].width * j, FieldResult(c, i, j).value.bytes);
  }

  lemma PlainFieldKept(relocs: seq<Reloc>, d: Definitions, bytes: seq<byte>, data: seq<byte>, relas: seq<Rela>,
                       symbols: seq<Symbol>, section: nat, f: nat, width: nat)
    requires SectionSettled(d, data, relas, symbols, section, relocs, |relocs|) && KeptOutside(bytes, data, relocs, |relocs|)
    requires f + width <= |bytes| && 1 <= width
    requires forall k :: 0 <= k < |relocs| ==> Misses(relocs[k], f, width)
    ensures FindRela(relas, f).None?
    ensures data[f..f + width] == bytes[f..f + width]
  {
    hide Settled, FindRela, PatchesInPlace;
    forall m | 0 <= m < |relas| ensures relas[m].offset != f {
      assert FromReference(relas[m].offset, section, d, relocs, |relocs|);
      var k :| 0 <= k < |relocs| && relocs[k].offset == relas[m].offset;
      assert Misses(relocs[k], f, width);
    }
    FindRelaIn(relas, f);
    forall p | f <= p < f + width ensures data[p] == bytes[p] {
      forall k | 0 <= k < |relocs|
        ensures !(relocs[k].offset <= p < relocs[k].offset + FieldWidth(relocs[k].rType))
      {
        assert Misses(relocs[k], f, width);
      }
      assert !InField(relocs, |relocs|, p);
    }
  }

  /**
    Every data field of the object links, for every link, to the value the source asked for modulo the
    field width: numbers, symbol references and differences, folded or relocated.
   */
  lemma {:induction false} DataFieldLinks(c: Context, d: Definitions, data: seq<byte>, relas: seq<Rela>, symbols: seq<Symbol>, link: Link,
                       i: nat, j: nat)
    requires Folded(c, d, data, relas, symbols) && IsField(c, i, j)
    ensures FieldPos(c, i, j) + c.sb.items[i].width <= |data|
    ensures Linked(data, relas, symbols, link, c.index, FieldPos(c, i, j), c.sb.items[i].width)
            == DataMeaning(d, link, c.index, c.sb.items[i].values[j], FieldPos(c, i, j)) % Pow256(c.sb.items[i].width)
  {
    hide ItemPiece, Image, DataMeaning, Wanted, SectionSettled, Field;
    var Data(width, values) := c.sb.items[i];
    var f := FieldPos(c, i, j);
    var image := Image(c, |c.sb.items|).value;
    FieldInImage(c, i, j);
    var piece := FieldResult(c, i, j).value;
    FieldMeaning(c, i, width, values[j], f, d, link);
    if piece.relocs == [] {
      forall k | 0 <= k < |image.relocs| ensures Misses(image.relocs[k], f, width) {
        PlainFieldUntouched(c, i, j, image.relocs[k]);
      }
      PlainFieldKept(image.relocs, d, image.bytes, data, relas, symbols, c.index, f, width);
    } else {
      FieldWithin(c, i, width, values[j], f);
      RelocatedField(c, d, data, relas, symbols, link, piece.relocs[0]);
    }
  }

  lemma RelocatedField(c: Context, d: Definitions, data: seq<byte>, relas: seq<Rela>, symbols: seq<Symbol>, link: Link, r: Reloc)
    requires Folded(c, d, data, relas, symbols)
    requires r in Image(c, |c.sb.items|).value.relocs && IsSupported(r.rType)
    ensures r.offset + FieldWidth(r.rType) <= |data|
    ensures Linked(data, relas, symbols, link, c.index, r.offset, FieldWidth(r.rType))
            == Wanted(d, link, c.index, r) % Pow256(FieldWidth(r.rType))
  {
    hide Image;
    var relocs := Image(c, |c.sb.items|).value.relocs;
    var k :| 0 <= k < |relocs| && relocs[k] == r;
    ImageFoldable(c);
    FoldingPreservesMeaning(d, data, relas, symbols, c.index, relocs, k, link);
  }

  /** A branch to a name outside this stream links to a displacement that reaches the name's address. */
  lemma FarBranchReaches(c: Context, d: Definitions, data: seq<byte>, relas: seq<Rela>, symbols: seq<Symbol>, link: Link, i: nat)
    requires Folded(c, d, data, relas, symbols)
    requires i < |c.sb.items| && c.sb.items[i].Branch? && !IsRelaxable(c.sb, c.weak, i)
    ensures 4 <= Pos(c, i + 1) <= |data|
    ensures Linked(data, relas, symbols, link, c.index, Pos(c, i + 1) - 4, 4)
            == (NameAddress(d, link, c.sb.items[i].target) - (link.base(c.index) + Pos(c, i + 1))) % Pow256(4)
  {
    hide Image, ItemPiece;
    var r := FarBranchReloc(c, i);
    RelocatedField(c, d, data, relas, symbols, link, r);
  }

  lemma FarBranchReloc(c: Context, i: nat) returns (r: Reloc)
    requires Valid(c) && !c.isBss && Image(c, |c.sb.items|).Ok?
    requires i < |c.sb.items| && c.sb.items[i].Branch? && !IsRelaxable(c.sb, c.weak, i)
    ensures r in Image(c, |c.sb.items|).value.relocs
    ensures r == Reloc(Pos(c, i + 1) - 4, c.sb.items[i].target, R_X86_64_PLT32, -4)
  {
    hide Image;
    ItemAtOffset(c, i, |c.sb.items|);
    r := Reloc(Pos(c, i) + |LongOpcode(c.sb.items[i].kind)|, c.sb.items[i].target, R_X86_64_PLT32, -4);
    assert ItemPiece(c, i).value.relocs == [r];
  }
}
