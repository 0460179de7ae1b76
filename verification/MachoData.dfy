/**
  From data directives to linked Mach-O fields (src/assemble.rs): every element of every data directive is
  either stored with its value or patched and relocated, and for every link holds its expression's value.
 */
module MachoData {
  import opened Words
  import opened Expr
  import opened Layout
  import LayoutRun
  import opened Assembler
  import MachoRelocs
  import Resolver
  import SetScope

  type Places = seq<(nat, u64)>

  /** What a successful run of both passes leaves. */
  ghost predicate Emission(stmts: seq<Stmt>, reached: Places, sections: seq<Section>, tables: seq<SymbolTable>) {
    && (forall k :: 0 <= k < |stmts| ==> WellFormedStmt(stmts[k]))
    && BytesPlaced(stmts, reached, sections, tables) && Follow(stmts, reached, sections, tables)
  }

  /** A section with bytes whose offsets fit in 32 bits. */
  predicate Addressable(sections: seq<Section>, x: nat) {
    x < |sections| && !IsZerofill(sections[x].kind) && |sections[x].data| <= 0x1_0000_0000
  }

  /** The four-byte fields are classified when they are resolved, under the values at the end. */
  function FormOf(kind: FixupKind, final: SymbolTable): Option<ClassifiedExpr> {
    match kind
    case Word => None
    case Data64(form) => Some(form)
    case Data32(e) => var form := Classify(e, final); if form.Ok? then Some(form.value) else None
  }

  /** The data fields of section x among the fixups, or None if one has no form any more. */
  function DataFixups(fixups: seq<Fixup>, x: nat, final: SymbolTable): Option<seq<MachoRelocs.DataFixup>> {
    if fixups == [] then Some([])
    else
      var last := fixups[|fixups| - 1];
      var before := DataFixups(fixups[..|fixups| - 1], x, final);
      if before.None? || last.section != x || last.kind.Word? then before
      else
        var form := FormOf(last.kind, final);
        if form.None? then None else Some(before.value + [MachoRelocs.DataFixup(last.offset, last.width == 8, form.value)])
  }

  // ---- fixups stand behind one another ------------------------------------------------------

  predicate Sized(f: Fixup) {
    match f.kind
    case Word => f.width == 4
    case Data32(_) => f.width == 4
    case Data64(_) => f.width == 8
  }

  /** The fixups of section x lie between two offsets, each behind the one before. */
  ghost predicate Ordered(fixups: seq<Fixup>, x: nat, lo: nat, hi: nat) {
    && (forall m :: 0 <= m < |fixups| && fixups[m].section == x ==>
          Sized(fixups[m]) && lo <= fixups[m].offset && fixups[m].offset + fixups[m].width <= hi)
    && (forall m, n :: 0 <= m < n < |fixups| && fixups[m].section == x && fixups[n].section == x ==>
          fixups[m].offset + fixups[m].width <= fixups[n].offset)
  }

  lemma OrderedJoin(a: seq<Fixup>, b: seq<Fixup>, x: nat, lo: nat, mid: nat, hi: nat)
    requires Ordered(a, x, lo, mid) && Ordered(b, x, mid, hi) && lo <= mid <= hi
    ensures Ordered(a + b, x, lo, hi)
  {
  }

  lemma OrderedWider(a: seq<Fixup>, x: nat, lo: nat, hi: nat, lo': nat, hi': nat)
    requires Ordered(a, x, lo, hi) && lo' <= lo && hi <= hi'
    ensures Ordered(a, x, lo', hi')
  {
  }

  lemma Low32(offset: nat)
    requires offset < 0x1_0000_0000
    ensures offset % 0x1_0000_0000 == offset
  {
  }

  lemma ValueOrdered(e: Expr, width: nat, symbols: SymbolTable, section: nat, offset: nat, x: nat)
    requires DataWidth(width) && offset + width <= 0x1_0000_0000
    ensures Ordered(ValueFixups(e, width, symbols, section, offset), x, offset, offset + width)
  {
    hide Classify;
    Low32(offset);
  }

  lemma {:induction false} ValuesOrdered(values: seq<Expr>, width: nat, symbols: SymbolTable, section: nat, offset: nat, x: nat)
    requires DataWidth(width) && offset + |values| * width <= 0x1_0000_0000
    ensures Ordered(ValuesFixups(values, width, symbols, section, offset), x, offset, offset + |values| * width)
  {
    hide ValueFixups, Ordered;
    if values == [] {
      NoneOrdered(x, offset, offset);
    } else {
      var last: nat := |values| - 1;
      assert |values| * width == last * width + width;
      ValuesOrdered(values[..last], width, symbols, section, offset, x);
      ValueOrdered(values[last], width, symbols, section, offset + last * width, x);
      OrderedJoin(ValuesFixups(values[..last], width, symbols, section, offset),
                  ValueFixups(values[last], width, symbols, section, offset + last * width),
                  x, offset, offset + last * width, offset + |values| * width);
    }
  }

  lemma NoneOrdered(x: nat, lo: nat, hi: nat)
    ensures Ordered([], x, lo, hi)
  {
  }

  lemma {:induction false} OtherSection(values: seq<Expr>, width: nat, symbols: SymbolTable, section: nat, offset: nat)
    ensures forall m :: 0 <= m < |ValuesFixups(values, width, symbols, section, offset)| ==>
              ValuesFixups(values, width, symbols, section, offset)[m].section == section
  {
    hide Classify;
    if values != [] {
      OtherSection(values[..|values| - 1], width, symbols, section, offset);
    }
  }

  /** A statement's fixups lie within its own bytes. */
  lemma StmtOrdered(s: Stmt, symbols: SymbolTable, kind: SectionKind, section: nat, offset: u64, x: nat)
    requires WellFormedStmt(s) && StmtBytes(kind, offset, s, symbols).Some?
    requires section == x ==> offset + |StmtBytes(kind, offset, s, symbols).value| <= 0x1_0000_0000
    ensures section == x ==> Ordered(StmtFixups(s, symbols, section, offset), x, offset, offset + |StmtBytes(kind, offset, s, symbols).value|)
    ensures section != x ==> forall lo, hi :: Ordered(StmtFixups(s, symbols, section, offset), x, lo, hi)
  {
    hide Classify, ValuesFixups, ValuesBytes, AlignBytes, Copies, LE;
    match s
    case InstructionWithReloc(_) =>
      if section == x {
        Low32(offset);
      }
    case DataValues(width, values) =>
      OtherSection(values, width, symbols, section, offset);
      if section == x {
        ValuesOrdered(values, width, symbols, section, offset, x);
      }
    case _ =>
  }

  /** Statement k of section x ends within the section. */
  lemma EndsInside(stmts: seq<Stmt>, reached: Places, sections: seq<Section>, tables: seq<SymbolTable>, k: nat)
    requires Emission(stmts, reached, sections, tables) && k < |stmts|
    ensures |reached| == |tables| == |stmts| && reached[k].0 < |sections|
    ensures StmtBytes(sections[reached[k].0].kind, reached[k].1, stmts[k], tables[k]).Some?
    ensures !IsZerofill(sections[reached[k].0].kind) ==> EndAt(stmts, reached, sections, tables, k) <= |sections[reached[k].0].data|
  {
    hide StmtBytes, Follow;
    assert PlacedAt(stmts[k], reached[k], sections, tables[k]);
  }

  /** The fixups of the first i statements lie in order below any bound on where the statements end. */
  lemma {:induction false} AllOrdered(stmts: seq<Stmt>, reached: Places, sections: seq<Section>, tables: seq<SymbolTable>,
                                      x: nat, i: nat, hi: nat)
    requires Emission(stmts, reached, sections, tables) && Addressable(sections, x) && i <= |stmts| && |reached| == |tables| == |stmts|
    requires forall k :: 0 <= k < i ==> reached[k].0 < |sections|
    requires forall k :: 0 <= k < i && reached[k].0 == x ==> EndAt(stmts, reached, sections, tables, k) <= hi
    ensures Ordered(FixupsUpTo(stmts, reached, tables, i), x, 0, hi)
  {
    hide StmtBytes, StmtFixups, Ordered, Follow, EndAt, BytesPlaced, WellFormedStmt;
    if i == 0 {
      NoneOrdered(x, 0, hi);
    } else {
      var last := i - 1;
      var (section, offset) := reached[last];
      EndsInside(stmts, reached, sections, tables, last);
      var mine := StmtFixups(stmts[last], tables[last], section, offset);
      if section == x {
        EndIs(stmts, reached, sections, tables, last);
        forall k | 0 <= k < last && reached[k].0 == x ensures EndAt(stmts, reached, sections, tables, k) <= offset {
          InOrder(stmts, reached, sections, tables, k, last);
        }
        AllOrdered(stmts, reached, sections, tables, x, last, offset);
        StmtOrdered(stmts[last], tables[last], sections[section].kind, section, offset, x);
        OrderedWider(mine, x, offset, EndAt(stmts, reached, sections, tables, last), offset, hi);
        OrderedJoin(FixupsUpTo(stmts, reached, tables, last), mine, x, 0, offset, hi);
      } else {
        AllOrdered(stmts, reached, sections, tables, x, last, hi);
        StmtOrdered(stmts[last], tables[last], sections[section].kind, section, offset, x);
        assert Ordered(mine, x, hi, hi);
        OrderedJoin(FixupsUpTo(stmts, reached, tables, last), mine, x, 0, hi, hi);
      }
    }
  }

  lemma EndIs(stmts: seq<Stmt>, reached: Places, sections: seq<Section>, tables: seq<SymbolTable>, k: nat)
    requires k < |stmts| == |reached| == |tables| && reached[k].0 < |sections| && WellFormedStmt(stmts[k])
    requires StmtBytes(sections[reached[k].0].kind, reached[k].1, stmts[k], tables[k]).Some?
    ensures EndAt(stmts, reached, sections, tables, k)
            == reached[k].1 + |StmtBytes(sections[reached[k].0].kind, reached[k].1, stmts[k], tables[k]).value|
  {
    hide StmtBytes;
  }

  lemma InOrder(stmts: seq<Stmt>, reached: Places, sections: seq<Section>, tables: seq<SymbolTable>, k: nat, m: nat)
    requires Emission(stmts, reached, sections, tables) && k < m < |stmts| == |reached| == |tables|
    requires reached[k].0 == reached[m].0 < |sections| && !IsZerofill(sections[reached[k].0].kind)
    ensures EndAt(stmts, reached, sections, tables, k) <= reached[m].1
  {
    hide StmtBytes, BytesPlaced;
    assert Behind(stmts, reached, sections, tables, k, m);
  }

  // ---- the fields handed to the resolver ----------------------------------------------------------

  /** The field is the fixup's, with its form. */
  predicate IsField(f: MachoRelocs.DataFixup, fixup: Fixup, final: SymbolTable) {
    !fixup.kind.Word? && f.offset == fixup.offset && f.wide == (fixup.width == 8) && FormOf(fixup.kind, final) == Some(f.form)
  }

  /** The last fixup adds its field, if it is a data field of the section. */
  lemma LastField(fixups: seq<Fixup>, x: nat, final: SymbolTable)
    requires fixups != [] && DataFixups(fixups, x, final).Some?
    ensures DataFixups(fixups[..|fixups| - 1], x, final).Some?
    ensures var before, fs, last := DataFixups(fixups[..|fixups| - 1], x, final).value, DataFixups(fixups, x, final).value, fixups[|fixups| - 1];
            if last.section != x || last.kind.Word? then fs == before
            else |fs| == |before| + 1 && before <= fs && IsField(fs[|before|], last, final)
  {
    hide FormOf;
  }

  /** Every field comes from a fixup of the section. */
  lemma {:induction false} FieldsFrom(fixups: seq<Fixup>, x: nat, final: SymbolTable, q: nat) returns (m: nat)
    requires DataFixups(fixups, x, final).Some? && q < |DataFixups(fixups, x, final).value|
    ensures m < |fixups| && fixups[m].section == x && IsField(DataFixups(fixups, x, final).value[q], fixups[m], final)
  {
    hide DataFixups, IsField;
    m := 0;
    if fixups == [] {
      NoFields(x, final);
      assert false;
    } else {
      var last := |fixups| - 1;
      LastField(fixups, x, final);
      if q < |DataFixups(fixups[..last], x, final).value| {
        m := FieldsFrom(fixups[..last], x, final, q);
      } else {
        m := last;
      }
    }
  }

  lemma NoFields(x: nat, final: SymbolTable)
    ensures DataFixups([], x, final) == Some([])
  {
  }

  /** Every data fixup of the section has its field. */
  lemma {:induction false} FieldOf(fixups: seq<Fixup>, x: nat, final: SymbolTable, m: nat) returns (q: nat)
    requires DataFixups(fixups, x, final).Some? && m < |fixups| && fixups[m].section == x && !fixups[m].kind.Word?
    ensures q < |DataFixups(fixups, x, final).value| && IsField(DataFixups(fixups, x, final).value[q], fixups[m], final)
  {
    hide DataFixups, IsField;
    var last := |fixups| - 1;
    LastField(fixups, x, final);
    if m < last {
      q := FieldOf(fixups[..last], x, final, m);
    } else {
      q := |DataFixups(fixups[..last], x, final).value|;
    }
  }

  /** Fields of ordered fixups do not overlap. */
  lemma {:induction false} FieldsSeparate(fixups: seq<Fixup>, x: nat, final: SymbolTable, hi: nat)
    requires Ordered(fixups, x, 0, hi) && DataFixups(fixups, x, final).Some?
    ensures MachoRelocs.FieldsApart(DataFixups(fixups, x, final).value)
  {
    hide DataFixups, FormOf;
    if fixups == [] {
      NoFields(x, final);
    } else {
      var last := |fixups| - 1;
      LastField(fixups, x, final);
      FieldsSeparate(fixups[..last], x, final, hi);
      var before, fs := DataFixups(fixups[..last], x, final).value, DataFixups(fixups, x, final).value;
      forall i, j | 0 <= i < j < |fs| ensures MachoRelocs.Separate(fs[i], fs[j]) {
        if j < |before| {
          assert MachoRelocs.Separate(before[i], before[j]);
        } else {
          var m := FieldsFrom(fixups[..last], x, final, i);
          assert fixups[m].offset + fixups[m].width <= fixups[last].offset;
        }
      }
    }
  }

  // ---- one element ------------------------------------------------------------------------------------

  ghost predicate IsElement(stmts: seq<Stmt>, k: nat, j: nat) {
    k < |stmts| && stmts[k].DataValues? && DataWidth(stmts[k].width) && j < |stmts[k].values|
  }

  function ElementAt(stmts: seq<Stmt>, reached: Places, k: nat, j: nat): nat
    requires k < |stmts| && k < |reached| && stmts[k].DataValues?
  {
    reached[k].1 + j * stmts[k].width
  }

  /** Element j is written at its place among the elements. */
  lemma {:induction false} ElementBytes(values: seq<Expr>, width: nat, symbols: SymbolTable, n: nat, j: nat)
    requires DataWidth(width) && j < n <= |values| && ValuesBytes(values[..n], width, symbols).Some?
    ensures ValueBytes(values[j], width, symbols).Some?
    ensures SliceAt(ValuesBytes(values[..n], width, symbols).value, j * width, ValueBytes(values[j], width, symbols).value)
    decreases n
  {
    hide ValueBytes;
    assert values[..n][..n - 1] == values[..n - 1];
    var before, last := ValuesBytes(values[..n - 1], width, symbols).value, ValueBytes(values[n - 1], width, symbols).value;
    if j < n - 1 {
      ElementBytes(values, width, symbols, n - 1, j);
      SliceKept(before, last, j * width, ValueBytes(values[j], width, symbols).value);
    } else {
      assert (before + last)[|before|..] == last;
    }
  }

  /** The fixups of the first n elements hold element j's. */
  lemma {:induction false} ElementFixup(values: seq<Expr>, width: nat, symbols: SymbolTable, section: nat, offset: nat, n: nat, j: nat)
    requires j < n <= |values|
    ensures forall f :: f in ValueFixups(values[j], width, symbols, section, offset + j * width) ==>
              f in ValuesFixups(values[..n], width, symbols, section, offset)
    decreases n
  {
    hide ValueFixups;
    assert values[..n][..n - 1] == values[..n - 1];
    if j < n - 1 {
      ElementFixup(values, width, symbols, section, offset, n - 1, j);
    }
  }

  /** The fixups of a statement are among those of all. */
  lemma {:induction false} StmtAmong(stmts: seq<Stmt>, reached: Places, tables: seq<SymbolTable>, i: nat, k: nat, f: Fixup)
    requires k < i <= |stmts| && i <= |reached| && i <= |tables|
    requires f in StmtFixups(stmts[k], tables[k], reached[k].0, reached[k].1)
    ensures f in FixupsUpTo(stmts, reached, tables, i)
    decreases i
  {
    hide StmtFixups;
    if k < i - 1 {
      StmtAmong(stmts, reached, tables, i - 1, k, f);
    }
  }

  /** No fixup of section x overlaps the bytes from lo up to hi. */
  ghost predicate Clear(fixups: seq<Fixup>, x: nat, lo: nat, hi: nat) {
    forall m :: 0 <= m < |fixups| && fixups[m].section == x ==> fixups[m].offset + fixups[m].width <= lo || hi <= fixups[m].offset
  }

  lemma ClearBefore(fixups: seq<Fixup>, x: nat, a: nat, b: nat, lo: nat, hi: nat)
    requires Ordered(fixups, x, a, b) && (b <= lo || hi <= a)
    ensures Clear(fixups, x, lo, hi)
  {
  }

  lemma ClearJoin(a: seq<Fixup>, b: seq<Fixup>, x: nat, lo: nat, hi: nat)
    requires Clear(a, x, lo, hi) && Clear(b, x, lo, hi)
    ensures Clear(a + b, x, lo, hi)
  {
  }

  /** An element without a fixup is clear of the other elements' fixups. */
  lemma {:induction false} ElementClear(values: seq<Expr>, width: nat, symbols: SymbolTable, x: nat, offset: nat, n: nat, j: nat)
    requires DataWidth(width) && j < |values| && n <= |values| && offset + |values| * width <= 0x1_0000_0000
    requires ValueFixups(values[j], width, symbols, x, offset + j * width) == []
    ensures Clear(ValuesFixups(values[..n], width, symbols, x, offset), x, offset + j * width, offset + j * width + width)
    decreases n
  {
    hide ValueFixups, Clear;
    var lo := offset + j * width;
    if n == 0 {
      NothingClear(x, lo, lo + width);
    } else {
      var last: nat := n - 1;
      assert values[..n][..last] == values[..last];
      ElementClear(values, width, symbols, x, offset, last, j);
      var mine := ValueFixups(values[last], width, symbols, x, offset + last * width);
      if last == j {
        NothingClear(x, lo, lo + width);
      } else {
        Steps(width, j, last, |values|);
        ValueOrdered(values[last], width, symbols, x, offset + last * width, x);
        ClearBefore(mine, x, offset + last * width, offset + last * width + width, lo, lo + width);
      }
      ClearJoin(ValuesFixups(values[..last], width, symbols, x, offset), mine, x, lo, lo + width);
    }
  }

  lemma NothingClear(x: nat, lo: nat, hi: nat)
    ensures Clear([], x, lo, hi)
  {
  }

  /** Multiples of the width are at least a width apart. */
  lemma Steps(width: nat, i: nat, j: nat, n: nat)
    requires i < n && j < n && i != j
    ensures i * width + width <= j * width || j * width + width <= i * width
    ensures i * width + width <= n * width && j * width + width <= n * width
  {
    assert i * width + width == (i + 1) * width && j * width + width == (j + 1) * width;
    StepsUp(width, i + 1, n);
    StepsUp(width, j + 1, n);
    if i < j {
      StepsUp(width, i + 1, j);
    } else {
      StepsUp(width, j + 1, i);
    }
  }

  lemma StepsUp(width: nat, i: nat, j: nat)
    requires i <= j
    ensures i * width <= j * width
  {
    assert j * width == i * width + (j - i) * width;
  }

  /** The element lies within its statement's bytes, and they within the section. */
  lemma ElementInside(stmts: seq<Stmt>, reached: Places, sections: seq<Section>, tables: seq<SymbolTable>, x: nat, k: nat, j: nat)
    requires Emission(stmts, reached, sections, tables) && Addressable(sections, x) && IsElement(stmts, k, j)
    requires |reached| == |tables| == |stmts| && reached[k].0 == x
    ensures var width, values := stmts[k].width, stmts[k].values;
            && ElementAt(stmts, reached, k, j) + width <= EndAt(stmts, reached, sections, tables, k) == reached[k].1 + |values| * width
            && EndAt(stmts, reached, sections, tables, k) <= |sections[x].data| <= 0x1_0000_0000
            && ValuesBytes(values, width, tables[k]).Some?
              && SliceAt(sections[x].data, reached[k].1, ValuesBytes(values, width, tables[k]).value)
  {
    hide ValuesBytes, Follow;
    EndsInside(stmts, reached, sections, tables, k);
    assert PlacedAt(stmts[k], reached[k], sections, tables[k]);
    StepsUp(stmts[k].width, j + 1, |stmts[k].values|);
  }

  /** An element without a fixup is clear of all fixups of its section. */
  lemma {:induction false} AllClear(stmts: seq<Stmt>, reached: Places, sections: seq<Section>, tables: seq<SymbolTable>,
                                    x: nat, k: nat, j: nat, i: nat)
    requires Emission(stmts, reached, sections, tables) && Addressable(sections, x) && IsElement(stmts, k, j) && i <= |stmts|
    requires |reached| == |tables| == |stmts| && reached[k].0 == x
    requires ValueFixups(stmts[k].values[j], stmts[k].width, tables[k], x, ElementAt(stmts, reached, k, j)) == []
    ensures var lo := ElementAt(stmts, reached, k, j);
            Clear(FixupsUpTo(stmts, reached, tables, i), x, lo, lo + stmts[k].width)
    decreases i
  {
    hide Emission, Clear, Ordered, ValueFixups, EndAt, StmtFixups;
    var lo := ElementAt(stmts, reached, k, j);
    var hi := lo + stmts[k].width;
    ElementInside(stmts, reached, sections, tables, x, k, j);
    if i <= k {
      EarlierClear(stmts, reached, sections, tables, x, k, i, lo, hi);
    } else {
      var last := i - 1;
      AllClear(stmts, reached, sections, tables, x, k, j, last);
      var mine := StmtFixups(stmts[last], tables[last], reached[last].0, reached[last].1);
      if last == k {
        OwnClear(stmts, reached, tables, x, k, j);
      } else {
        LaterClear(stmts, reached, sections, tables, x, k, last, lo, hi);
      }
      ClearJoin(FixupsUpTo(stmts, reached, tables, last), mine, x, lo, hi);
    }
  }

  /** The fixups of the statements in front lie before the element. */
  lemma EarlierClear(stmts: seq<Stmt>, reached: Places, sections: seq<Section>, tables: seq<SymbolTable>, x: nat, k: nat,
                     i: nat, lo: nat, hi: nat)
    requires Emission(stmts, reached, sections, tables) && Addressable(sections, x) && i <= k < |stmts| == |reached| == |tables|
    requires reached[k].0 == x && reached[k].1 <= lo
    ensures Clear(FixupsUpTo(stmts, reached, tables, i), x, lo, hi)
  {
    hide Clear, Ordered, StmtFixups, StmtBytes, BytesPlaced, Follow, WellFormedStmt, EndAt, FixupsUpTo;
    forall q | 0 <= q < i ensures reached[q].0 < |sections|
              && (reached[q].0 == x ==> EndAt(stmts, reached, sections, tables, q) <= reached[k].1) {
      EndsInside(stmts, reached, sections, tables, q);
      if reached[q].0 == x {
        InOrder(stmts, reached, sections, tables, q, k);
      }
    }
    AllOrdered(stmts, reached, sections, tables, x, i, reached[k].1);
    ClearBefore(FixupsUpTo(stmts, reached, tables, i), x, 0, reached[k].1, lo, hi);
  }

  lemma OwnClear(stmts: seq<Stmt>, reached: Places, tables: seq<SymbolTable>, x: nat, k: nat, j: nat)
    requires IsElement(stmts, k, j) && k < |reached| && k < |tables| && reached[k].0 == x
    requires reached[k].1 + |stmts[k].values| * stmts[k].width <= 0x1_0000_0000
    requires ValueFixups(stmts[k].values[j], stmts[k].width, tables[k], x, ElementAt(stmts, reached, k, j)) == []
    ensures var lo := ElementAt(stmts, reached, k, j);
            Clear(StmtFixups(stmts[k], tables[k], reached[k].0, reached[k].1), x, lo, lo + stmts[k].width)
  {
    hide ValueFixups, Clear;
    var values := stmts[k].values;
    assert values[..|values|] == values;
    ElementClear(values, stmts[k].width, tables[k], x, reached[k].1, |values|, j);
  }

  /** A later statement's fixups lie behind the element. */
  lemma LaterClear(stmts: seq<Stmt>, reached: Places, sections: seq<Section>, tables: seq<SymbolTable>, x: nat, k: nat,
                   last: nat, lo: nat, hi: nat)
    requires Emission(stmts, reached, sections, tables) && Addressable(sections, x) && k < last < |stmts| == |reached| == |tables|
    requires reached[k].0 == x && hi <= EndAt(stmts, reached, sections, tables, k)
    ensures Clear(StmtFixups(stmts[last], tables[last], reached[last].0, reached[last].1), x, lo, hi)
  {
    hide Clear, Ordered, StmtFixups, StmtBytes, BytesPlaced, Follow, WellFormedStmt, EndAt;
    var (section, offset) := reached[last];
    var mine := StmtFixups(stmts[last], tables[last], section, offset);
    EndsInside(stmts, reached, sections, tables, last);
    if section == x {
      EndIs(stmts, reached, sections, tables, last);
      InOrder(stmts, reached, sections, tables, k, last);
      StmtOrdered(stmts[last], tables[last], sections[section].kind, section, offset, x);
      ClearBefore(mine, x, offset, EndAt(stmts, reached, sections, tables, last), lo, hi);
    } else {
      StmtOrdered(stmts[last], tables[last], sections[section].kind, section, offset, x);
      assert Ordered(mine, x, hi, hi);
      ClearBefore(mine, x, hi, hi, lo, hi);
    }
  }

  // ---- what the section holds after the fixups ----------------------------------------------------------

  /** The data fixups of section x are resolved: every field means its form and every other byte is as emitted. */
  ghost predicate ResolvedSection(sections: seq<Section>, x: nat, fs: seq<MachoRelocs.DataFixup>, data: seq<byte>)
    requires x < |sections|
  {
    MachoRelocs.FieldsMean(data, fs, |fs|) && MachoRelocs.OthersKept(sections[x].data, data, fs, |fs|)
  }

  /** The relocations of one element: those of its form if it is patched. */
  function ElementGroup(patched: bool, form: ClassifiedExpr, width: nat, at: nat): seq<MachoRelocs.Pending> {
    if patched then MachoRelocs.DataGroup(at, if width == 8 then 3 else 2, form) else []
  }

  /** The values an element is given: its own place's, or those at the end for a four-byte field that is patched. */
  function TableUsed(form: ClassifiedExpr, width: nat, here: SymbolTable, final: SymbolTable): SymbolTable {
    if width == 4 && Patched(form, width) then final else here
  }

  /** A patched element: its field is one of the resolved ones. */
  lemma PatchedElement(stmts: seq<Stmt>, reached: Places, tables: seq<SymbolTable>, fixups: seq<Fixup>, x: nat, final: SymbolTable,
                       fs: seq<MachoRelocs.DataFixup>, k: nat, j: nat) returns (q: nat)
    requires |reached| == |tables| == |stmts| && IsElement(stmts, k, j) && reached[k].0 == x
    requires fixups == FixupsUpTo(stmts, reached, tables, |stmts|) && DataFixups(fixups, x, final) == Some(fs)
    requires ElementAt(stmts, reached, k, j) < 0x1_0000_0000
    requires var form := Classify(stmts[k].values[j], tables[k]); form.Ok? && Patched(form.value, stmts[k].width)
    ensures q < |fs| && fs[q].offset == ElementAt(stmts, reached, k, j) && fs[q].wide == (stmts[k].width == 8)
    ensures Classify(stmts[k].values[j], TableUsed(Classify(stmts[k].values[j], tables[k]).value, stmts[k].width, tables[k], final)) == Ok(fs[q].form)
  {
    hide Classify, ValuesFixups, FixupsUpTo, DataFixups;
    var width, values, at := stmts[k].width, stmts[k].values, ElementAt(stmts, reached, k, j);
    var form := Classify(values[j], tables[k]).value;
    Low32(at);
    var f := Fixup(x, at, width, if width == 8 then Data64(form) else Data32(values[j]));
    assert ValueFixups(values[j], width, tables[k], x, at) == [f];
    assert values[..|values|] == values;
    ElementFixup(values, width, tables[k], x, reached[k].1, |values|, j);
    StmtAmong(stmts, reached, tables, |stmts|, k, f);
    var m :| 0 <= m < |fixups| && fixups[m] == f;
    q := FieldOf(fixups, x, final, m);
  }

  /** An element that is not patched: its bytes are still those that were emitted. */
  lemma StoredElement(stmts: seq<Stmt>, reached: Places, sections: seq<Section>, tables: seq<SymbolTable>, fixups: seq<Fixup>, x: nat,
                      final: SymbolTable, fs: seq<MachoRelocs.DataFixup>, data: seq<byte>, k: nat, j: nat)
    requires Emission(stmts, reached, sections, tables) && Addressable(sections, x) && |reached| == |tables| == |stmts|
    requires fixups == FixupsUpTo(stmts, reached, tables, |stmts|) && DataFixups(fixups, x, final) == Some(fs)
    requires ResolvedSection(sections, x, fs, data) && IsElement(stmts, k, j) && reached[k].0 == x
    requires ValueFixups(stmts[k].values[j], stmts[k].width, tables[k], x, ElementAt(stmts, reached, k, j)) == []
    ensures ValueBytes(stmts[k].values[j], stmts[k].width, tables[k]).Some?
    ensures SliceAt(data, ElementAt(stmts, reached, k, j), ValueBytes(stmts[k].values[j], stmts[k].width, tables[k]).value)
  {
    hide Emission, ValueFixups, ValueBytes, FixupsUpTo, DataFixups, MachoRelocs.FieldsMean, MachoRelocs.OthersKept, Clear, Ordered;
    EmittedElement(stmts, reached, sections, tables, x, k, j);
    AllClear(stmts, reached, sections, tables, x, k, j, |stmts|);
    OrderedAll(stmts, reached, sections, tables, x);
    var at := ElementAt(stmts, reached, k, j);
    StillEmitted(sections[x].data, fixups, x, final, fs, data, at, at + stmts[k].width);
  }

  lemma EmittedElement(stmts: seq<Stmt>, reached: Places, sections: seq<Section>, tables: seq<SymbolTable>, x: nat, k: nat, j: nat)
    requires Emission(stmts, reached, sections, tables) && Addressable(sections, x) && |reached| == |tables| == |stmts|
    requires IsElement(stmts, k, j) && reached[k].0 == x
    ensures ValueBytes(stmts[k].values[j], stmts[k].width, tables[k]).Some?
    ensures SliceAt(sections[x].data, ElementAt(stmts, reached, k, j), ValueBytes(stmts[k].values[j], stmts[k].width, tables[k]).value)
  {
    hide Emission, ValueBytes, ValuesBytes, EndAt;
    var width, values := stmts[k].width, stmts[k].values;
    ElementInside(stmts, reached, sections, tables, x, k, j);
    assert values[..|values|] == values;
    ElementBytes(values, width, tables[k], |values|, j);
    SliceInside(sections[x].data, reached[k].1, ValuesBytes(values, width, tables[k]).value, j * width,
                ValueBytes(values[j], width, tables[k]).value);
  }

  /** Bytes clear of the fixups are still the ones emitted. */
  lemma StillEmitted(emitted: seq<byte>, fixups: seq<Fixup>, x: nat, final: SymbolTable, fs: seq<MachoRelocs.DataFixup>, data: seq<byte>,
                     lo: nat, hi: nat)
    requires Ordered(fixups, x, 0, |emitted|) && Clear(fixups, x, lo, hi) && DataFixups(fixups, x, final) == Some(fs)
    requires MachoRelocs.OthersKept(emitted, data, fs, |fs|) && lo <= hi <= |emitted|
    ensures |data| == |emitted| && data[lo..hi] == emitted[lo..hi]
  {
    hide DataFixups, FormOf;
    forall p | lo <= p < hi ensures data[p] == emitted[p] {
      forall q | 0 <= q < |fs| ensures !MachoRelocs.Touches(fs[q], p) {
        var m := FieldsFrom(fixups, x, final, q);
        assert Sized(fixups[m]);
      }
    }
  }

  lemma OrderedAll(stmts: seq<Stmt>, reached: Places, sections: seq<Section>, tables: seq<SymbolTable>, x: nat)
    requires Emission(stmts, reached, sections, tables) && Addressable(sections, x) && |reached| == |tables| == |stmts|
    ensures Ordered(FixupsUpTo(stmts, reached, tables, |stmts|), x, 0, |sections[x].data|)
  {
    hide Ordered, BytesPlaced, Follow, WellFormedStmt, EndAt, FixupsUpTo;
    forall k | 0 <= k < |stmts|
      ensures reached[k].0 < |sections| && (reached[k].0 == x ==> EndAt(stmts, reached, sections, tables, k) <= |sections[x].data|)
    {
      EndsInside(stmts, reached, sections, tables, k);
    }
    AllOrdered(stmts, reached, sections, tables, x, |stmts|, |sections[x].data|);
  }

  /** What resolving all data fixups of the section asks of them. */
  lemma FixupsApart(stmts: seq<Stmt>, reached: Places, sections: seq<Section>, tables: seq<SymbolTable>, x: nat, final: SymbolTable)
    requires Emission(stmts, reached, sections, tables) && Addressable(sections, x) && |reached| == |tables| == |stmts|
    requires DataFixups(FixupsUpTo(stmts, reached, tables, |stmts|), x, final).Some?
    ensures MachoRelocs.FieldsApart(DataFixups(FixupsUpTo(stmts, reached, tables, |stmts|), x, final).value)
  {
    hide Emission, Ordered, FixupsUpTo, DataFixups, MachoRelocs.FieldsApart;
    OrderedAll(stmts, reached, sections, tables, x);
    FieldsSeparate(FixupsUpTo(stmts, reached, tables, |stmts|), x, final, |sections[x].data|);
  }

  /** A stored element is its expression's value in so many bytes. */
  lemma StoredMeaning(e: Expr, width: nat, symbols: SymbolTable, env: Environment)
    requires DataWidth(width) && ValueBytes(e, width, symbols).Some? && Classify(e, symbols).Ok?
              && !Patched(Classify(e, symbols).value, width)
    ensures FromLE(ValueBytes(e, width, symbols).value) % Pow256(width) == Value(e, symbols, env) % Pow256(width)
  {
    var v, p := Value(e, symbols, env), Pow256(width);
    DivModUnique(v % p, p, 0, v % p);
    hide Classify, LE, FromLE, Value, Pow256, SignedFits, UnsignedFits;
    ClassifyMeaning(e, symbols, env);
    var form := Classify(e, symbols).value;
    if form.AbsoluteForm? {
      FieldRoundTrip(form.constant, width);
    } else {
      FieldRoundTrip(form.magnitude, width);
    }
  }

  /**
    End to end: every element of every data directive links, for every link, to the value of its
    expression modulo its width. The expression is read under the values of its own place, except that a
    four-byte field that is patched is read under the values at the end.
   */
  lemma ElementLinks(stmts: seq<Stmt>, reached: Places, sections: seq<Section>, tables: seq<SymbolTable>, fixups: seq<Fixup>, x: nat,
                     final: SymbolTable, fs: seq<MachoRelocs.DataFixup>, data: seq<byte>, k: nat, j: nat, env: Environment)
    requires Emission(stmts, reached, sections, tables) && Addressable(sections, x) && |reached| == |tables| == |stmts|
    requires fixups == FixupsUpTo(stmts, reached, tables, |stmts|) && DataFixups(fixups, x, final) == Some(fs)
    requires ResolvedSection(sections, x, fs, data) && IsElement(stmts, k, j) && reached[k].0 == x
    ensures var e, width, at := stmts[k].values[j], stmts[k].width, ElementAt(stmts, reached, k, j);
            && at + width <= |data| && Classify(e, tables[k]).Ok?
            && var here := Classify(e, tables[k]).value;
            && var used := TableUsed(here, width, tables[k], final);
            && Classify(e, used).Ok?
            && var group := ElementGroup(Patched(here, width), Classify(e, used).value, width, at);
               MachoRelocs.LinkedField(group, FromLE(data[at..at + width]), used, env) % Pow256(width)
               == Value(e, used, env) % Pow256(width)
  {
    hide Emission, Classify, ValuesBytes, FixupsUpTo, DataFixups, EndAt, Value, Pow256, FromLE, MachoRelocs.LinkedField,
      MachoRelocs.DataGroup;
    var e, width, at := stmts[k].values[j], stmts[k].width, ElementAt(stmts, reached, k, j);
    ElementInside(stmts, reached, sections, tables, x, k, j);
    assert stmts[k].values[..|stmts[k].values|] == stmts[k].values;
    ElementBytes(stmts[k].values, width, tables[k], |stmts[k].values|, j);
    var here := Classify(e, tables[k]).value;
    var used := TableUsed(here, width, tables[k], final);
    if Patched(here, width) {
      var q := PatchedElement(stmts, reached, tables, fixups, x, final, fs, k, j);
      assert MachoRelocs.FixupMeans(data, fs[q]);
      assert MachoRelocs.FixupGroup(fs[q]) == ElementGroup(true, fs[q].form, width, at) && MachoRelocs.FieldSize(fs[q]) == width;
      ClassifyMeaning(e, used, env);
    } else {
      StoredElement(stmts, reached, sections, tables, fixups, x, final, fs, data, k, j);
      StoredMeaning(e, width, tables[k], env);
      assert data[at..at + width] == ValueBytes(e, width, tables[k]).value;
      NothingLinked(FromLE(data[at..at + width]), used, env);
    }
  }

  lemma NothingLinked(field: int, symbols: SymbolTable, env: Environment)
    ensures MachoRelocs.LinkedField([], field, symbols, env) == field
  {
  }

  /** Every data fixup of the section still has a form, and its field is one that form can be written to. */
  ghost predicate Patchable(fixups: seq<Fixup>, sections: seq<Section>, x: nat, final: SymbolTable)
    requires x < |sections|
  {
    && DataFixups(fixups, x, final).Some?
    && forall q :: 0 <= q < |DataFixups(fixups, x, final).value| ==>
         MachoRelocs.Resolvable(DataFixups(fixups, x, final).value[q], |sections[x].data|)
  }

  /** Build the list of a section's data fields and resolve them all; None if one has no form or its section cannot take it. */
  method PatchSection(ghost stmts: seq<Stmt>, ghost reached: Places, sections: seq<Section>, ghost tables: seq<SymbolTable>,
                      fixups: seq<Fixup>,
                      x: nat, final: SymbolTable) returns (r: Option<MachoRelocs.Recorder>)
    requires Emission(stmts, reached, sections, tables) && Addressable(sections, x) && |reached| == |tables| == |stmts|
    requires fixups == FixupsUpTo(stmts, reached, tables, |stmts|)
    ensures r.Some? <==> Patchable(fixups, sections, x, final)
    ensures r.Some? ==>
              && var fs := DataFixups(fixups, x, final).value;
              && fresh(r.value) && r.value.Valid() && r.value.pending == MachoRelocs.GroupsOf(fs)
              && ResolvedSection(sections, x, fs, r.value.data)
    ensures r.Some? ==> Means(stmts, reached, tables, final, r.value.data, x)
  {
    hide Emission, MachoRelocs.FieldsApart, MachoRelocs.Resolvable, MachoRelocs.FieldsMean, MachoRelocs.OthersKept, FixupsUpTo, Classify, SectionHolds,
      OwnValues, AddendsKept;
    var fs: seq<MachoRelocs.DataFixup> := [];
    var m := 0;
    while m < |fixups|
      invariant 0 <= m <= |fixups| && DataFixups(fixups[..m], x, final) == Some(fs)
    {
      var f := fixups[m];
      assert fixups[..m + 1][..m] == fixups[..m];
      if f.section == x && !f.kind.Word? {
        var form := if f.kind.Data64? then Some(f.kind.form) else FormOf(f.kind, final);
        if form.None? {
          FieldsStop(fixups, x, final, m + 1);
          return None;
        }
        fs := fs + [MachoRelocs.DataFixup(f.offset, f.width == 8, form.value)];
      }
      m := m + 1;
    }
    assert fixups[..m] == fixups;
    FixupsApart(stmts, reached, sections, tables, x, final);
    var recorder := new MachoRelocs.Recorder(sections[x].data);
    var resolved := recorder.ResolveAll(fs);
    if resolved.Err? {
      return None;
    }
    assert [] + MachoRelocs.GroupsOf(fs) == MachoRelocs.GroupsOf(fs);
    HoldsAll(stmts, reached, sections, tables, fixups, x, final, fs, recorder.data);
    OwnValuesExactly(stmts, reached, tables, final, recorder.data, x);
    return Some(recorder);
  }

  /** For every link the element holds the value of its expression, under the values it is given. */
  ghost predicate ElementHolds(stmts: seq<Stmt>, reached: Places, tables: seq<SymbolTable>, final: SymbolTable, data: seq<byte>,
                               k: nat, j: nat)
    requires IsElement(stmts, k, j) && k < |reached| && k < |tables|
  {
    var e, width, at := stmts[k].values[j], stmts[k].width, ElementAt(stmts, reached, k, j);
    && at + width <= |data| && Classify(e, tables[k]).Ok?
    && var here := Classify(e, tables[k]).value;
    && var used := TableUsed(here, width, tables[k], final);
    && Classify(e, used).Ok?
    && var group := ElementGroup(Patched(here, width), Classify(e, used).value, width, at);
       forall env: Environment ::
         MachoRelocs.LinkedField(group, FromLE(data[at..at + width]), used, env) % Pow256(width) == Value(e, used, env) % Pow256(width)
  }

  /** Every element of every data directive in section x does. */
  ghost predicate SectionHolds(stmts: seq<Stmt>, reached: Places, tables: seq<SymbolTable>, final: SymbolTable, data: seq<byte>, x: nat)
    requires |stmts| == |reached| == |tables|
  {
    forall k: nat, j: nat :: IsElement(stmts, k, j) && reached[k].0 == x ==> ElementHolds(stmts, reached, tables, final, data, k, j)
  }

  // ---- the value at the element's own place --------------------------------------------------------

  /** For every link the element holds the value its expression has at its own place. */
  ghost predicate OwnValue(stmts: seq<Stmt>, reached: Places, tables: seq<SymbolTable>, final: SymbolTable, data: seq<byte>,
                           k: nat, j: nat)
    requires IsElement(stmts, k, j) && k < |reached| && k < |tables|
  {
    var e, width, at := stmts[k].values[j], stmts[k].width, ElementAt(stmts, reached, k, j);
    && at + width <= |data| && Classify(e, tables[k]).Ok?
    && var here := Classify(e, tables[k]).value;
    && var used := TableUsed(here, width, tables[k], final);
    && Classify(e, used).Ok?
    && var group := ElementGroup(Patched(here, width), Classify(e, used).value, width, at);
       forall env: Environment ::
         MachoRelocs.LinkedField(group, FromLE(data[at..at + width]), tables[k], env) % Pow256(width)
         == Value(e, tables[k], env) % Pow256(width)
  }

  /** Every element of every data directive in section x does. */
  ghost predicate OwnValues(stmts: seq<Stmt>, reached: Places, tables: seq<SymbolTable>, final: SymbolTable, data: seq<byte>, x: nat)
    requires |stmts| == |reached| == |tables|
  {
    forall k: nat, j: nat :: IsElement(stmts, k, j) && reached[k].0 == x ==> OwnValue(stmts, reached, tables, final, data, k, j)
  }

  /** A GOT form that is classified again at the end has the same addend there, modulo its four bytes. */
  predicate AddendKept(e: Expr, here: SymbolTable, final: SymbolTable) {
    var f, g := Classify(e, here), Classify(e, final);
    f.Ok? && f.value.PointerToGot? && g.Ok? && g.value.PointerToGot? ==> (g.value.addend - f.value.addend) % 0x1_0000_0000 == 0
  }

  ghost predicate AddendsKept(stmts: seq<Stmt>, reached: Places, tables: seq<SymbolTable>, final: SymbolTable, x: nat)
    requires |stmts| == |reached| == |tables|
  {
    forall k: nat, j: nat :: IsElement(stmts, k, j) && stmts[k].width == 4 && reached[k].0 == x ==>
      AddendKept(stmts[k].values[j], tables[k], final)
  }

  lemma ModShift(a: int, d: int, m: nat)
    requires m > 0
    ensures a % m == (a + d) % m <==> d % m == 0
  {
    if d % m == 0 {
      DivModUnique(a + d, m, a / m + d / m, a % m);
    } else if a % m == (a + d) % m {
      DivModUnique(d, m, (a + d) / m - a / m, 0);
      assert false;
    }
  }

  /** A field that is read again at the end means its place's value exactly if the addend is the same there. */
  lemma ReadAgain(e: Expr, here: SymbolTable, final: SymbolTable, g: seq<MachoRelocs.Pending>, field: int, env: Environment)
    requires Classify(e, here).Ok? && Classify(e, here).value.PointerToGot? && Classify(e, final).Ok?
    requires MachoRelocs.LinkedField(g, field, final, env) % Pow256(4) == Value(e, final, env) % Pow256(4)
    ensures MachoRelocs.LinkedField(g, field, final, env) % Pow256(4) == Value(e, here, env) % Pow256(4) <==> AddendKept(e, here, final)
  {
    hide Classify, Value, MachoRelocs.LinkedField;
    Pow256Values();
    PointerShift(e, here, final, env);
    ModShift(Value(e, here, env), Classify(e, final).value.addend - Classify(e, here).value.addend, 0x1_0000_0000);
  }

  /** GOT entries name no symbol of the table. */
  lemma GotLinks(at: nat, form: ClassifiedExpr, field: int, s1: SymbolTable, s2: SymbolTable, env: Environment)
    requires form.PointerToGot?
    ensures MachoRelocs.LinkedField(ElementGroup(true, form, 4, at), field, s1, env)
            == MachoRelocs.LinkedField(ElementGroup(true, form, 4, at), field, s2, env)
  {
  }

  lemma LateExactly(stmts: seq<Stmt>, reached: Places, tables: seq<SymbolTable>, final: SymbolTable, data: seq<byte>, k: nat, j: nat)
    requires IsElement(stmts, k, j) && k < |reached| && k < |tables| && ElementHolds(stmts, reached, tables, final, data, k, j)
    requires stmts[k].width == 4 && Classify(stmts[k].values[j], tables[k]).value.PointerToGot?
    ensures OwnValue(stmts, reached, tables, final, data, k, j) <==> AddendKept(stmts[k].values[j], tables[k], final)
  {
    hide Classify, Value, MachoRelocs.LinkedField, FromLE, Pow256, AddendKept, ElementGroup;
    var e, here, at := stmts[k].values[j], tables[k], ElementAt(stmts, reached, k, j);
    PointerStays(e, here, final);
    var form, field := Classify(e, final).value, FromLE(data[at..at + 4]);
    var g := ElementGroup(true, form, 4, at);
    forall env: Environment
      ensures MachoRelocs.LinkedField(g, field, here, env) % Pow256(4) == Value(e, here, env) % Pow256(4) <==> AddendKept(e, here, final)
    {
      GotLinks(at, form, field, here, final, env);
      ReadAgain(e, here, final, g, field, env);
    }
    var env := Environment(_ => 0, _ => 0, _ => 0, 0);
    assert MachoRelocs.LinkedField(g, field, here, env) % Pow256(4) == Value(e, here, env) % Pow256(4) <==> AddendKept(e, here, final);
  }

  /**
    An element means its place's value for every link, unless it is a four-byte GOT form whose addend is
    another one at the end: exactly then it does not.
   */
  lemma OwnValueExactly(stmts: seq<Stmt>, reached: Places, tables: seq<SymbolTable>, final: SymbolTable, data: seq<byte>, k: nat, j: nat)
    requires IsElement(stmts, k, j) && k < |reached| && k < |tables| && ElementHolds(stmts, reached, tables, final, data, k, j)
    ensures OwnValue(stmts, reached, tables, final, data, k, j)
            <==> (stmts[k].width == 4 ==> AddendKept(stmts[k].values[j], tables[k], final))
  {
    hide Classify, Value, MachoRelocs.LinkedField, FromLE, Pow256, ElementGroup;
    if stmts[k].width == 4 && Classify(stmts[k].values[j], tables[k]).value.PointerToGot? {
      LateExactly(stmts, reached, tables, final, data, k, j);
    }
  }

  lemma OwnValuesExactly(stmts: seq<Stmt>, reached: Places, tables: seq<SymbolTable>, final: SymbolTable, data: seq<byte>, x: nat)
    requires |stmts| == |reached| == |tables| && SectionHolds(stmts, reached, tables, final, data, x)
    ensures OwnValues(stmts, reached, tables, final, data, x) <==> AddendsKept(stmts, reached, tables, final, x)
  {
    hide ElementHolds, OwnValue, AddendKept;
    forall k: nat, j: nat | IsElement(stmts, k, j) && reached[k].0 == x
      ensures OwnValue(stmts, reached, tables, final, data, k, j)
              <==> (stmts[k].width == 4 ==> AddendKept(stmts[k].values[j], tables[k], final))
    {
      assert ElementHolds(stmts, reached, tables, final, data, k, j);
      OwnValueExactly(stmts, reached, tables, final, data, k, j);
    }
  }

  /** The values when the last statement has been emitted. */
  ghost function TableAtEnd(stmts: seq<Stmt>, p: Resolver.Problem, aliases: seq<Option<string>>, values: seq<i64>,
                            initial: map<string, i64>, labels: map<string, (nat, u64)>): SymbolTable
    requires |SetList(stmts)| <= |values| == |p.assignments| == |aliases|
  {
    TableOf(SetScope.CurrentAt(p, aliases, values, initial, |SetList(stmts)|), labels)
  }

  /**
    The elements of section x hold what they are given: their place's value, or that at the end where a
    four-byte field is read again. All of them hold their place's value exactly if the addends of those
    fields are kept.
   */
  ghost predicate Means(stmts: seq<Stmt>, reached: Places, tables: seq<SymbolTable>, final: SymbolTable, data: seq<byte>, x: nat)
    requires |stmts| == |reached| == |tables|
  {
    && SectionHolds(stmts, reached, tables, final, data, x)
    && (OwnValues(stmts, reached, tables, final, data, x) <==> AddendsKept(stmts, reached, tables, final, x))
  }

  /**
    The data fields of section x are resolved exactly if it has 32-bit offsets and every field a form it can
    be written in; then its elements mean what they should.
   */
  ghost predicate SectionResolved(asm: Assembly, stmts: seq<Stmt>, x: nat, recorder: Option<MachoRelocs.Recorder>)
    requires asm.Lists(stmts)
    reads asm, asm.cursor, if recorder.Some? then {recorder.value} else {}
  {
    var tables, final := asm.TablesFor(stmts), asm.Table();
    && |asm.reached| == |stmts|
    && final == TableAtEnd(stmts, asm.cursor.problem, asm.cursor.aliases, asm.cursor.values, asm.cursor.initial, asm.labels)
    && (recorder.Some? <==> Addressable(asm.sections, x) && Patchable(asm.fixups, asm.sections, x, final))
    && (recorder.Some? ==> recorder.value.Valid() && Means(stmts, asm.reached, tables, final, recorder.value.data, x))
  }

  /**
    Both passes, then the data fixups of one section. The section's elements mean what the source asked for
    at their own places, or at the end where a four-byte field is read again; all of them their own place's
    value exactly if the addends of those fields are kept.
   */
  method AssembleSection(asm: Assembly, stmts: seq<Stmt>, x: nat) returns (r: Result<Option<MachoRelocs.Recorder>, AsmError>)
    requires asm.Valid() && asm.View() == LayoutRun.InitialLayout() && asm.proc == null && asm.reached == [] && asm.assignments == []
    requires forall i :: 0 <= i < |stmts| ==> WellFormedStmt(stmts[i])
    modifies asm, asm.cursor
    ensures r.Ok? ==> asm.NamesResolved(stmts) && asm.AsLaidOut(stmts) && asm.BytesWritten(stmts)
    ensures r.Ok? ==> SectionResolved(asm, stmts, x, r.value)
    ensures match Failure(stmts)
            case Some(e) => r == Err(e)
            case None => asm.NamesResolved(stmts) && if asm.Accepted(stmts) then r.Ok? else r == Err(EmissionFailed)
  {
    hide LayoutRun.LayoutAll, BytesPlaced, Follow, FixupsUpTo, TablesUnder, TableOf, Emission, WellFormedStmt, SetScope.Bound,
      SetScope.LastBound, Failure, Assembly.AsLaidOut, Assembly.Accepted, Assembly.UnwindWritten, Assembly.Valid, Assembly.View, Means,
      Patchable, SetScope.CurrentAt, SetList, SetScope.Aliased, Resolves, DataFixups, ResolvedSection, MachoRelocs.GroupsOf,
      MachoRelocs.Recorder.Valid, Resolver.Evaluates, LayoutRun.InitialLayout;
    var assembled := asm.AssembleLocated(stmts);
    if assembled.Err? {
      return Err(assembled.error);
    }
    ghost var tables := asm.TablesFor(stmts);
    EmissionLeft(stmts, asm.reached, asm.sections, tables);
    if !Addressable(asm.sections, x) {
      return Ok(None);
    }
    var recorder := PatchSection(stmts, asm.reached, asm.sections, tables, asm.fixups, x, asm.Table());
    return Ok(recorder);
  }

  lemma EmissionLeft(stmts: seq<Stmt>, reached: Places, sections: seq<Section>, tables: seq<SymbolTable>)
    requires BytesPlaced(stmts, reached, sections, tables) && Follow(stmts, reached, sections, tables)
    requires forall k :: 0 <= k < |stmts| ==> WellFormedStmt(stmts[k])
    ensures |reached| == |stmts| == |tables| && Emission(stmts, reached, sections, tables)
  {
    hide Follow, WellFormedStmt, StmtBytes;
  }

  lemma HoldsAll(stmts: seq<Stmt>, reached: Places, sections: seq<Section>, tables: seq<SymbolTable>, fixups: seq<Fixup>, x: nat,
                 final: SymbolTable, fs: seq<MachoRelocs.DataFixup>, data: seq<byte>)
    requires Emission(stmts, reached, sections, tables) && Addressable(sections, x) && |reached| == |tables| == |stmts|
    requires fixups == FixupsUpTo(stmts, reached, tables, |stmts|) && DataFixups(fixups, x, final) == Some(fs)
    requires ResolvedSection(sections, x, fs, data)
    ensures SectionHolds(stmts, reached, tables, final, data, x)
  {
    hide Emission, FixupsUpTo, DataFixups, ResolvedSection, ElementHolds;
    forall k: nat, j: nat | IsElement(stmts, k, j) && reached[k].0 == x ensures ElementHolds(stmts, reached, tables, final, data, k, j) {
      Holds(stmts, reached, sections, tables, fixups, x, final, fs, data, k, j);
    }
  }

  lemma Holds(stmts: seq<Stmt>, reached: Places, sections: seq<Section>, tables: seq<SymbolTable>, fixups: seq<Fixup>, x: nat,
              final: SymbolTable, fs: seq<MachoRelocs.DataFixup>, data: seq<byte>, k: nat, j: nat)
    requires Emission(stmts, reached, sections, tables) && Addressable(sections, x) && |reached| == |tables| == |stmts|
    requires fixups == FixupsUpTo(stmts, reached, tables, |stmts|) && DataFixups(fixups, x, final) == Some(fs)
    requires ResolvedSection(sections, x, fs, data) && IsElement(stmts, k, j) && reached[k].0 == x
    ensures ElementHolds(stmts, reached, tables, final, data, k, j)
  {
    hide Emission, Classify, FixupsUpTo, DataFixups, ResolvedSection, Value, FromLE, Pow256, MachoRelocs.LinkedField, ElementGroup;
    ElementLinks(stmts, reached, sections, tables, fixups, x, final, fs, data, k, j, Environment(_ => 0, _ => 0, _ => 0, 0));
    forall env: Environment {
      ElementLinks(stmts, reached, sections, tables, fixups, x, final, fs, data, k, j, env);
    }
  }

  lemma {:induction false} FieldsStop(fixups: seq<Fixup>, x: nat, final: SymbolTable, m: nat)
    requires m <= |fixups| && DataFixups(fixups[..m], x, final).None?
    ensures DataFixups(fixups, x, final).None?
  {
    hide FormOf;
    if m == |fixups| {
      assert fixups[..m] == fixups;
    } else {
      assert fixups[..|fixups| - 1][..m] == fixups[..m];
      FieldsStop(fixups[..|fixups| - 1], x, final, m);
    }
  }
}
