/**
  The x86-64 assembler's middle, from merged sections to a folded object: relax and materialise each
  section in order, then settle every reference. On success the object means what the source said.
 */
module X86Assemble {
  import opened Words
  import opened X86Layout
  import opened X86Merge
  import opened X86Materialize
  import opened X86Fold
  import opened X86Meaning

  const SHT_NOBITS: nat := 8

  datatype AssembleError = Layout(section: nat, why: LayoutError) | Emit(section: nat, what: EmitError)

  datatype Laid = Laid(context: Context, image: Piece, sizeDot: map<string, nat>, size: nat)

  /** What pass 1 and merging guarantee about all sections together. */
  ghost predicate Input(sections: seq<NamedSection>) {
    && (forall s :: 0 <= s < |sections| ==> SectionInput(sections[s].build))
    && LabelsDistinct(sections)
  }

  ghost predicate SectionInput(sb: SecBuild) {
    && WellFormed(sb) && EncoderOk(sb)
    && (forall l <- sb.labels :: l in sb.labelOrder)
    && forall i :: 0 <= i < |sb.items| && sb.items[i].Data? ==> 1 <= sb.items[i].width <= 8
  }

  /** Section s is relaxed, and its labels have their final offsets. */
  ghost predicate Sized(section: NamedSection, weak: set<string>, s: nat, c: Context) {
    && c.sb == section.build && c.weak == weak && c.index == s
    && c.isText == (section.name == ".text") && c.isBss == (c.sb.shType == SHT_NOBITS)
    && Valid(c) && EncoderOk(c.sb)
  }

  /** Section s is laid out and written. */
  ghost predicate LaidOut(section: NamedSection, weak: set<string>, s: nat, l: Laid) {
    var c := l.context;
    && Sized(section, weak, s, c)
    && Image(c, |c.sb.items|) == Ok(l.image)
    && l.sizeDot == SizeDots(c, |c.sb.items|) && l.size == Pos(c, |c.sb.items|)
  }

  /** Every label of the first n sections, at its final offset. */
  ghost predicate LabelsOf(sections: seq<NamedSection>, laid: seq<Laid>, n: nat, labels: map<string, (nat, nat)>) {
    && n <= |laid| && n <= |sections|
    && (forall l <- labels :: labels[l].0 < n && l in sections[labels[l].0].build.labels)
    && (forall s :: 0 <= s < n ==> forall l <- sections[s].build.labels :: l in labels && labels[l].0 == s)
  }

  /** A layout error is the sizing walk's; an emission error comes from writing the relaxed section. */
  ghost predicate Fails(section: NamedSection, weak: set<string>, s: nat, e: AssembleError)
    requires WellFormed(section.build)
  {
    match e
    case Layout(at, why) => at == s && Relaxed(section.build, weak, AllShort(|section.build.items|)) == Err(why)
    case Emit(at, what) =>
      at == s && !what.ShortBranchRange?
      && exists c: Context :: Sized(section, weak, s, c) && Image(c, |c.sb.items|) == Err(what)
  }

  lemma InputFormed(sb: SecBuild)
    requires SectionInput(sb)
    ensures WellFormed(sb) && forall l <- sb.labels :: sb.labels[l] <= |sb.items|
  {
  }

  /** With a valid sizing and its own labels entered the section is ready to be written. */
  lemma SizedHere(section: NamedSection, weak: set<string>, index: nat, long: seq<bool>, offsets: seq<nat>,
                  known: map<string, (nat, nat)>, own: map<string, (nat, nat)>)
    requires SectionInput(section.build) && ValidSizing(section.build, weak, long) && |offsets| == |section.build.items| + 1
    requires forall i :: 0 <= i < |offsets| ==> offsets[i] == Off(section.build, weak, long, i)
    requires own.Keys == section.build.labels.Keys
    requires forall l <- own :: section.build.labels[l] < |offsets| && own[l] == (index, offsets[section.build.labels[l]])
    ensures LabelsAdded(section, index, known, known + own)
    ensures Sized(section, weak, index, Context(section.build, weak, long, index, section.name == ".text",
                                                section.build.shType == SHT_NOBITS, known + own))
  {
    hide Off, WalkError, ValidSizing, EncoderOk;
  }

  lemma SizedValid(section: NamedSection, weak: set<string>, s: nat, c: Context)
    requires Sized(section, weak, s, c)
    ensures Valid(c) && EncoderOk(c.sb)
  {
    hide Valid, EncoderOk;
  }

  /** Relax and materialise one section. */
  method LayOutSection(section: NamedSection, weak: set<string>, index: nat, known: map<string, (nat, nat)>)
    returns (r: Result<Laid, AssembleError>, labels: map<string, (nat, nat)>)
    requires SectionInput(section.build)
    ensures r.Ok? ==> LaidOut(section, weak, index, r.value)
    ensures r.Ok? ==> labels == r.value.context.resolved && LabelsAdded(section, index, known, labels)
    ensures r.Err? ==> Fails(section, weak, index, r.error)
  {
    hide Image, SizeDots, NopRanges, Relaxed, EncoderOk, WellFormed, ValidSizing, Off, WalkError, LabelsAdded, Sized, Valid;
    InputFormed(section.build);
    labels := known;
    var sb := section.build;
    var sizing := Relax(sb, weak);
    if sizing.Err? {
      return Err(Layout(index, sizing.error)), labels;
    }
    var long := sizing.value;
    RelaxedIsValid(sb, weak, AllShort(|sb.items|));
    var walk := ComputeOffsets(sb, weak, long);
    var offsets := walk.value;
    var own := map l | l in sb.labels :: (index, offsets[sb.labels[l]]);
    labels := known + own;
    var c := Context(sb, weak, long, index, section.name == ".text", sb.shType == SHT_NOBITS, labels);
    SizedHere(section, weak, index, long, offsets, known, own);
    SizedValid(section, weak, index, c);
    var image, size, sizeDot, nops := Materialize(c);
    if image.Err? {
      ShortBranchesAlwaysFit(c, |sb.items|);
      return Err(Emit(index, image.error)), labels;
    }
    return Ok(Laid(c, image.value, sizeDot, size)), labels;
  }

  method LayOut(sections: seq<NamedSection>, weak: set<string>)
    returns (r: Result<seq<Laid>, AssembleError>, labels: map<string, (nat, nat)>)
    requires Input(sections)
    ensures r.Ok? ==> AllLaidOut(sections, weak, r.value, labels, |sections|)
    ensures r.Err? ==> exists s :: 0 <= s < |sections| && Fails(sections[s], weak, s, r.error)
  {
    hide LaidOut, Fails, LabelsAdded, LabelsDistinct, WellFormed, EncoderOk;
    var laid: seq<Laid> := [];
    labels := map[];
    var s := 0;
    while s < |sections|
      invariant 0 <= s <= |sections|
      invariant AllLaidOut(sections, weak, laid, labels, s)
    {
      var l, labels' := LayOutSection(sections[s], weak, s, labels);
      if l.Err? {
        return Err(l.error), labels;
      }
      LaidOutStep(sections, weak, laid, labels, s, l.value, labels');
      laid := laid + [l.value];
      labels := labels';
      s := s + 1;
    }
    return Ok(laid), labels;
  }

  /** Sections 0..n are laid out, and `labels` holds exactly their labels, at the offsets each of them uses. */
  ghost predicate AllLaidOut(sections: seq<NamedSection>, weak: set<string>, laid: seq<Laid>, labels: map<string, (nat, nat)>, n: nat) {
    && |laid| == n <= |sections|
    && (forall s :: 0 <= s < n ==> LaidOut(sections[s], weak, s, laid[s]))
    && (forall s :: 0 <= s < n ==> Includes(labels, laid[s].context.resolved))
    && LabelsOf(sections, laid, n, labels)
  }

  ghost predicate Includes(labels: map<string, (nat, nat)>, some: map<string, (nat, nat)>) {
    forall l <- some :: l in labels && labels[l] == some[l]
  }

  /** Labels of section s are new; the others keep their places. */
  ghost predicate LabelsAdded(section: NamedSection, s: nat, labels: map<string, (nat, nat)>, labels': map<string, (nat, nat)>) {
    && labels'.Keys == labels.Keys + section.build.labels.Keys
    && (forall name <- labels :: name !in section.build.labels ==> labels'[name] == labels[name])
    && (forall name <- section.build.labels :: labels'[name].0 == s)
  }

  ghost predicate LabelsDistinct(sections: seq<NamedSection>) {
    forall s, t :: 0 <= s < t < |sections| ==> sections[s].build.labels.Keys !! sections[t].build.labels.Keys
  }

  lemma LabelsNew(sections: seq<NamedSection>, laid: seq<Laid>, labels: map<string, (nat, nat)>, s: nat)
    requires LabelsDistinct(sections) && s < |sections| && LabelsOf(sections, laid, s, labels)
    ensures forall name <- labels :: name !in sections[s].build.labels
  {
    forall name | name in labels ensures name !in sections[s].build.labels {
      assert sections[labels[name].0].build.labels.Keys !! sections[s].build.labels.Keys;
    }
  }

  lemma LabelsStep(sections: seq<NamedSection>, laid: seq<Laid>, labels: map<string, (nat, nat)>, s: nat, l: Laid,
                   labels': map<string, (nat, nat)>)
    requires LabelsDistinct(sections) && s < |sections| && s == |laid| && LabelsOf(sections, laid, s, labels)
    requires LabelsAdded(sections[s], s, labels, labels')
    ensures LabelsOf(sections, laid + [l], s + 1, labels') && Includes(labels', labels)
  {
    LabelsNew(sections, laid, labels, s);
  }

  lemma IncludesAll(laid: seq<Laid>, labels: map<string, (nat, nat)>, labels': map<string, (nat, nat)>, l: Laid)
    requires (forall t :: 0 <= t < |laid| ==> Includes(labels, laid[t].context.resolved)) && Includes(labels', labels)
    requires labels' == l.context.resolved
    ensures forall t :: 0 <= t < |laid| + 1 ==> Includes(labels', (laid + [l])[t].context.resolved)
  {
    forall t | 0 <= t < |laid| + 1 ensures Includes(labels', (laid + [l])[t].context.resolved) {
      if t < |laid| {
        assert Includes(labels, laid[t].context.resolved);
      }
    }
  }

  lemma LaidOutStep(sections: seq<NamedSection>, weak: set<string>, laid: seq<Laid>, labels: map<string, (nat, nat)>, s: nat,
                    l: Laid, labels': map<string, (nat, nat)>)
    requires LabelsDistinct(sections) && s < |sections| && AllLaidOut(sections, weak, laid, labels, s)
    requires LaidOut(sections[s], weak, s, l) && labels' == l.context.resolved
    requires LabelsAdded(sections[s], s, labels, labels')
    ensures AllLaidOut(sections, weak, laid + [l], labels', s + 1)
  {
    hide LaidOut, LabelsOf, LabelsAdded, LabelsDistinct, Includes;
    LabelsStep(sections, laid, labels, s, l, labels');
    IncludesAll(laid, labels, labels', l);
  }

  /** References to settle and bytes to patch: NOBITS sections contribute no bytes. */
  function SectionBytes(l: Laid): seq<byte> {
    if l.context.isBss then [] else l.image.bytes
  }

  /** The labels are those of the sections, and every section lists all of its own. */
  ghost predicate LabelsListed(sections: seq<NamedSection>, labels: map<string, (nat, nat)>) {
    && (forall l <- labels :: labels[l].0 < |sections| && l in sections[labels[l].0].build.labelOrder)
    && (forall s, k :: 0 <= s < |sections| && 0 <= k < |sections[s].build.labelOrder| ==> sections[s].build.labelOrder[k] in labels)
  }

  lemma LabelsKnown(sections: seq<NamedSection>, weak: set<string>, laid: seq<Laid>, labels: map<string, (nat, nat)>)
    requires Input(sections) && AllLaidOut(sections, weak, laid, labels, |sections|)
    ensures LabelsListed(sections, labels)
  {
    hide LaidOut, EncoderOk;
    forall l | l in labels ensures labels[l].0 < |sections| && l in sections[labels[l].0].build.labelOrder {
      assert SectionInput(sections[labels[l].0].build);
    }
    forall s, k | 0 <= s < |sections| && 0 <= k < |sections[s].build.labelOrder| ensures sections[s].build.labelOrder[k] in labels {
      assert SectionInput(sections[s].build);
    }
  }

  ghost predicate ListEntered(order: seq<string>, exported: set<string>, known: set<string>) {
    forall k :: 0 <= k < |order| && order[k] in exported ==> order[k] in known
  }

  /** The symbols of all visible labels, section by section. */
  function LabelSymbols(d: Definitions, sections: seq<NamedSection>): seq<Symbol> {
    if sections == [] then []
    else LabelSymbols(d, sections[..|sections| - 1]) + VisibleSymbols(d, sections[|sections| - 1].build.labelOrder)
  }

  /** The exported labels of the first n sections have symbols. */
  ghost predicate ListsEntered(sections: seq<NamedSection>, n: nat, exported: set<string>, known: set<string>) {
    n <= |sections| && forall t :: 0 <= t < n ==> ListEntered(sections[t].build.labelOrder, exported, known)
  }

  /** One more section, every visible label of which has got its symbol. */
  lemma ListsEnteredNext(d: Definitions, sections: seq<NamedSection>, n: nat, before: set<string>, known: set<string>)
    requires n < |sections| && ListsEntered(sections, n, d.exported, before) && before <= known
    requires var order := sections[n].build.labelOrder; forall k :: 0 <= k < |order| && !IsHidden(d, order[k]) ==> order[k] in known
    ensures ListsEntered(sections, n + 1, d.exported, known)
  {
    forall t | 0 <= t < n + 1 ensures ListEntered(sections[t].build.labelOrder, d.exported, known) {
      if t < n {
        assert ListEntered(sections[t].build.labelOrder, d.exported, before);
      }
    }
  }

  lemma AllEntered(d: Definitions, sections: seq<NamedSection>, known: set<string>)
    requires LabelsListed(sections, d.labels) && ListsEntered(sections, |sections|, d.exported, known)
    ensures forall name <- d.labels :: name in d.exported ==> name in known
  {
    forall name | name in d.labels && name in d.exported ensures name in known {
      assert ListEntered(sections[d.labels[name].0].build.labelOrder, d.exported, known);
    }
  }

  lemma LabelSymbolsNext(d: Definitions, sections: seq<NamedSection>, s: nat)
    requires s < |sections|
    ensures LabelSymbols(d, sections[..s + 1]) == LabelSymbols(d, sections[..s]) + VisibleSymbols(d, sections[s].build.labelOrder)
  {
    assert sections[..s + 1][..s] == sections[..s];
  }

  /** Symbols for all visible labels, section by section. */
  method EnterLabels(folder: Folder, sections: seq<NamedSection>)
    requires folder.Valid() && LabelsListed(sections, folder.defs.labels)
    modifies folder
    ensures folder.Valid() && folder.Entered() && folder.data == old(folder.data) && folder.relas == old(folder.relas)
    ensures folder.symbols == old(folder.symbols) + LabelSymbols(folder.defs, sections)
  {
    hide IndexOk, RelasOk, DefinedWithin, IsHidden, VisibleSymbols, LabelSymbols, ListsEntered, Folder.Valid;
    var s := 0;
    ghost var start, d := folder.symbols, folder.defs;
    NoneEntered(d, sections, folder.symIndex.Keys);
    while s < |sections|
      invariant 0 <= s <= |sections| && folder.Valid() && folder.data == old(folder.data) && folder.relas == old(folder.relas)
      invariant folder.symbols == start + LabelSymbols(d, sections[..s])
      invariant ListsEntered(sections, s, d.exported, folder.symIndex.Keys)
    {
      var order := sections[s].build.labelOrder;
      ghost var known := folder.symIndex.Keys;
      folder.AddLabels(order);
      ListsEnteredNext(d, sections, s, known, folder.symIndex.Keys);
      LabelSymbolsNext(d, sections, s);
      s := s + 1;
    }
    assert sections[..s] == sections;
    AllEntered(d, sections, folder.symIndex.Keys);
  }

  lemma NoneEntered(d: Definitions, sections: seq<NamedSection>, known: set<string>)
    ensures LabelSymbols(d, sections[..0]) == [] && ListsEntered(sections, 0, d.exported, known)
  {
  }

  /** Folding works on exactly these commons, exported names and .bss section, and on exactly the sections' labels. */
  ghost predicate Defines(defs: Definitions, sections: seq<NamedSection>, weak: set<string>, exported: set<string>,
                          commons: map<string, nat>, bss: nat, laid: seq<Laid>) {
    && defs.commons == commons && defs.exported == exported && defs.bss == bss
    && AllLaidOut(sections, weak, laid, defs.labels, |sections|)
  }

  /**
    Lay out, enter symbols and fold. On success every section that occupies file space is `Folded`:
    `DataFieldLinks`, `FarBranchReaches` and `BranchLandsOnLabel` then give the meaning of its contents.
   */
  method Assemble(sections: seq<NamedSection>, weak: set<string>, exported: set<string>, commons: map<string, nat>, bss: nat)
    returns (laid: seq<Laid>, folder: Folder?, e: Option<AssembleError>, f: Option<FoldError>)
    requires Input(sections) && (|commons| > 0 ==> bss < |sections|)
    ensures e.Some? ==> exists s :: 0 <= s < |sections| && Fails(sections[s], weak, s, e.value)
    ensures f.Some? ==> e.None? && folder != null && |laid| == |sections|
                        && exists s, k :: 0 <= s < |laid| && 0 <= k < |laid[s].image.relocs|
                             && f == Refusal(folder.defs, laid[s].context.isBss, |SectionBytes(laid[s])|, exported, s, laid[s].image.relocs[k])
    ensures e.None? && f.None? ==>
              && folder != null && folder.Valid() && |laid| == |sections| == |folder.data| == |folder.relas|
              && Defines(folder.defs, sections, weak, exported, commons, bss, laid)
              && forall s :: 0 <= s < |sections| && !laid[s].context.isBss ==>
                   LaidOut(sections[s], weak, s, laid[s])
                   && Folded(laid[s].context, folder.defs, folder.data[s], folder.relas[s], folder.symbols)
  {
    hide Refusal, Fails, Image, Disjoint, InBounds, SectionSettled, KeptOutside, AllLaidOut, Input, LaidOut, Folded, IndexOk, RelasOk,
      LabelsListed, LabelSymbols, Folder.Entered, DefinedWithin;
    laid, folder, e, f := [], null, None, None;
    var layout, labels := LayOut(sections, weak);
    if layout.Err? {
      e := Some(layout.error);
      return;
    }
    laid := layout.value;
    var n := |laid|;
    var defs := Definitions(labels, commons, bss, exported);
    LabelsKnown(sections, weak, laid, labels);
    LabelsWithin(sections, weak, laid, defs);
    var names := seq(n, s requires 0 <= s < n => sections[s].name);
    var nobits := seq(n, s requires 0 <= s < n => laid[s].context.isBss);
    var data := seq(n, s requires 0 <= s < n => SectionBytes(laid[s]));
    var relocs := seq(n, s requires 0 <= s < n => laid[s].image.relocs);
    folder := new Folder(defs, names, nobits, data);
    EnterLabels(folder, sections);
    forall s | 0 <= s < n
      ensures Disjoint(relocs[s]) && (!nobits[s] ==> InBounds(relocs[s], |data[s]|))
    {
      LaidFoldable(sections, weak, laid, labels, s);
    }
    f := folder.FoldAll(relocs);
    if f.None? {
      forall s | 0 <= s < n && !laid[s].context.isBss
        ensures LaidOut(sections[s], weak, s, laid[s])
        ensures Folded(laid[s].context, defs, folder.data[s], folder.relas[s], folder.symbols)
      {
        RelasWithin(folder.relas, |folder.symbols|, s);
        FoldedHere(sections, weak, laid, defs, s, folder.data[s], folder.relas[s], folder.symbols);
      }
    }
  }

  lemma RelasWithin(relas: seq<seq<Rela>>, n: nat, s: nat)
    requires RelasOk(relas, n) && s < |relas|
    ensures forall m :: 0 <= m < |relas[s]| ==> relas[s][m].symbol < n
  {
  }

  lemma LabelsWithin(sections: seq<NamedSection>, weak: set<string>, laid: seq<Laid>, defs: Definitions)
    requires AllLaidOut(sections, weak, laid, defs.labels, |sections|) && (|defs.commons| > 0 ==> defs.bss < |sections|)
    ensures |laid| == |sections| && DefinedWithin(defs, |sections|)
  {
    hide LaidOut, Includes;
  }

  /** The references of a laid out section can be settled one by one. */
  lemma LaidFoldable(sections: seq<NamedSection>, weak: set<string>, laid: seq<Laid>, labels: map<string, (nat, nat)>, s: nat)
    requires AllLaidOut(sections, weak, laid, labels, |sections|) && s < |sections| == |laid|
    ensures Disjoint(laid[s].image.relocs)
    ensures !laid[s].context.isBss ==> InBounds(laid[s].image.relocs, |SectionBytes(laid[s])|)
  {
    hide Image, Disjoint, InBounds, Valid, EncoderOk, LabelsOf, Includes;
    assert LaidOut(sections[s], weak, s, laid[s]);
    ImageFoldable(laid[s].context);
  }

  lemma FoldedHere(sections: seq<NamedSection>, weak: set<string>, laid: seq<Laid>, defs: Definitions, s: nat,
                   data: seq<byte>, relas: seq<Rela>, symbols: seq<Symbol>)
    requires AllLaidOut(sections, weak, laid, defs.labels, |sections|) && s < |sections| == |laid| && !laid[s].context.isBss
    requires SectionSettled(defs, data, relas, symbols, s, laid[s].image.relocs, |laid[s].image.relocs|)
    requires KeptOutside(SectionBytes(laid[s]), data, laid[s].image.relocs, |laid[s].image.relocs|)
    requires forall m :: 0 <= m < |relas| ==> relas[m].symbol < |symbols|
    ensures LaidOut(sections[s], weak, s, laid[s]) && Folded(laid[s].context, defs, data, relas, symbols)
  {
    hide Image, SectionSettled, KeptOutside, Valid, EncoderOk, LabelsOf;
    assert LaidOut(sections[s], weak, s, laid[s]) && Includes(defs.labels, laid[s].context.resolved);
    assert Agrees(laid[s].context, defs);
  }

  // ---- merged subsections are what the assembler expects -------------------------------------

  lemma {:induction false} ConcatInput(builds: seq<SecBuild>, header: SecBuild)
    requires forall u :: 0 <= u < |builds| ==> SectionInput(builds[u])
    ensures SectionInput(Concat(builds, header))
  {
    if builds != [] {
      var last := |builds| - 1;
      ConcatInput(builds[..last], header);
      var before, merged := Concat(builds[..last], header), Concat(builds, header);
      forall i | 0 <= i < |merged.items|
        ensures merged.items[i].Bytes? ==>
                  InBounds(merged.items[i].relocs, |merged.items[i].bytes|) && Disjoint(merged.items[i].relocs)
        ensures merged.items[i].Data? ==> 1 <= merged.items[i].width <= 8
      {
        if i < |before.items| {
          assert merged.items[i] == before.items[i];
        } else {
          assert merged.items[i] == builds[last].items[i - |before.items|];
        }
      }
      ConcatOrder(builds, header);
    }
  }

  /** Merging subsection streams yields sections that meet every assumption of the later stages. */
  lemma MergedIsInput(streams: seq<Subsection>, sections: seq<NamedSection>, toSection: seq<nat>)
    requires MergeInput(streams) && IsMerge(streams, sections, toSection)
    requires forall k :: 0 <= k < |streams| ==> SectionInput(streams[k].build)
    ensures Input(sections)
  {
    forall s | 0 <= s < |sections| ensures SectionInput(sections[s].build) {
      var name := sections[s].name;
      var ks := Members(streams, name);
      forall u | 0 <= u < |ks| ensures SectionInput(streams[ks[u]].build) {
        assert IsMember(streams, name, ks[u]);
      }
      ConcatInput(BuildsOf(streams, name, ks), HeaderOf(streams, name));
    }
    forall s, t | 0 <= s < t < |sections|
      ensures sections[s].build.labels.Keys !! sections[t].build.labels.Keys
    {
      MergedLabelsApart(streams, sections[s].name, sections[t].name, sections, s, t);
    }
  }

  lemma MergedLabelsApart(streams: seq<Subsection>, a: string, b: string, sections: seq<NamedSection>, s: nat, t: nat)
    requires MergeInput(streams) && InSectionExists(streams, a) && InSectionExists(streams, b)
    requires s < t < |sections| && |sections| == |FirstUses(streams)|
    requires a == FirstUses(streams)[s] && b == FirstUses(streams)[t]
    ensures MergedSection(streams, a).labels.Keys !! MergedSection(streams, b).labels.Keys
  {
    hide MergeInput, MergedSection, Members, FirstUses, WellFormed, ItemBase;
    FirstUsesNames(streams);
    MergeAddsNothing(streams, a);
    MergeAddsNothing(streams, b);
    var ka, kb := Members(streams, a), Members(streams, b);
    forall l | l in MergedSection(streams, a).labels ensures l !in MergedSection(streams, b).labels {
      var u :| 0 <= u < |ka| && l in BuildsOf(streams, a, ka)[u].labels;
      forall v | 0 <= v < |kb| ensures l !in BuildsOf(streams, b, kb)[v].labels {
        assert IsMember(streams, a, ka[u]) && IsMember(streams, b, kb[v]);
        StreamsApart(streams, ka[u], kb[v], l);
      }
    }
  }

  lemma StreamsApart(streams: seq<Subsection>, j: nat, k: nat, l: string)
    requires MergeInput(streams) && j < |streams| && k < |streams| && j != k && l in streams[j].build.labels
    ensures l !in streams[k].build.labels
  {
    assert streams[j].build.labels.Keys !! streams[k].build.labels.Keys;
  }

  // ---- from subsection streams to linked fields --------------------------------------------------

  function BssSection(toSection: seq<nat>, bss: nat): nat {
    if bss < |toSection| then toSection[bss] else 0
  }

  /** Merge the streams, then assemble the sections; `.bss` is the section of stream `bss`. */
  method AssembleStreams(streams: seq<Subsection>, weak: set<string>, exported: set<string>, commons: map<string, nat>, bss: nat)
    returns (sections: seq<NamedSection>, toSection: seq<nat>, laid: seq<Laid>, folder: Folder?, e: Option<AssembleError>, f: Option<FoldError>)
    requires MergeInput(streams) && forall k :: 0 <= k < |streams| ==> SectionInput(streams[k].build)
    requires |commons| > 0 ==> bss < |streams|
    ensures IsMerge(streams, sections, toSection)
    ensures e.Some? ==> exists s :: 0 <= s < |sections| && WellFormed(sections[s].build) && Fails(sections[s], weak, s, e.value)
    ensures f.Some? ==> e.None? && folder != null && |laid| == |sections|
                        && exists s, k :: 0 <= s < |laid| && 0 <= k < |laid[s].image.relocs|
                             && f == Refusal(folder.defs, laid[s].context.isBss, |SectionBytes(laid[s])|, exported, s, laid[s].image.relocs[k])
    ensures e.None? && f.None? ==>
              && folder != null && |laid| == |sections| == |folder.data| == |folder.relas|
              && Defines(folder.defs, sections, weak, exported, commons, BssSection(toSection, bss), laid)
              && forall s :: 0 <= s < |sections| && !laid[s].context.isBss ==>
                   LaidOut(sections[s], weak, s, laid[s])
                   && Folded(laid[s].context, folder.defs, folder.data[s], folder.relas[s], folder.symbols)
  {
    hide IsMerge, LaidOut, Folded, Fails, MergeInput, SectionInput, Defines, Refusal;
    sections, toSection := MergeSubsections(streams);
    MergedIsInput(streams, sections, toSection);
    SectionsOfStreams(streams, sections, toSection);
    laid, folder, e, f := Assemble(sections, weak, exported, commons, BssSection(toSection, bss));
    InputWellFormed(sections);
  }

  lemma InputWellFormed(sections: seq<NamedSection>)
    requires Input(sections)
    ensures forall s :: 0 <= s < |sections| ==> WellFormed(sections[s].build)
  {
  }

  lemma SectionsOfStreams(streams: seq<Subsection>, sections: seq<NamedSection>, toSection: seq<nat>)
    requires IsMerge(streams, sections, toSection)
    ensures |toSection| == |streams| && forall k :: 0 <= k < |streams| ==> toSection[k] < |sections|
  {
  }

  /** Stream k is the u-th of the streams its section is merged from. */
  ghost predicate IsMemberAt(streams: seq<Subsection>, k: nat, u: nat)
    requires k < |streams|
  {
    var name := streams[k].section;
    && InSectionExists(streams, name)
    && var ks := Members(streams, name);
       u < |ks| && ks[u] == k
  }

  /** How many items of its section stand in front of stream k. */
  ghost function StreamBase(streams: seq<Subsection>, k: nat, u: nat): nat
    requires k < |streams| && IsMemberAt(streams, k, u)
  {
    var name := streams[k].section;
    ItemBase(BuildsOf(streams, name, Members(streams, name)), u)
  }

  /** Item i of stream k is an item of the stream's section, behind the items of the streams before. */
  lemma StreamItem(streams: seq<Subsection>, sections: seq<NamedSection>, toSection: seq<nat>, k: nat, i: nat) returns (u: nat, m: nat)
    requires MergeInput(streams) && IsMerge(streams, sections, toSection) && k < |streams| && i < |streams[k].build.items|
    ensures IsMemberAt(streams, k, u) && m == StreamBase(streams, k, u) + i
    ensures toSection[k] < |sections| && m < |sections[toSection[k]].build.items|
    ensures sections[toSection[k]].build.items[m] == streams[k].build.items[i]
  {
    hide MergeInput, IsMerge, MergedSection, SliceAt, InSectionExists;
    SectionOfStream(streams, sections, toSection, k);
    u := StreamStart(streams, k);
    SliceItem(MergedSection(streams, streams[k].section).items, StreamBase(streams, k, u), streams[k].build.items, i);
    m := StreamBase(streams, k, u) + i;
  }

  lemma StreamStart(streams: seq<Subsection>, k: nat) returns (u: nat)
    requires MergeInput(streams) && k < |streams|
    ensures IsMemberAt(streams, k, u)
    ensures SliceAt(MergedSection(streams, streams[k].section).items, StreamBase(streams, k, u), streams[k].build.items)
  {
    hide MergeInput, MergedSection, Members, AllInSection, ItemBase, LabelBase, SliceAt;
    u := MergeConservesStreams(streams, k);
  }

  lemma SectionOfStream(streams: seq<Subsection>, sections: seq<NamedSection>, toSection: seq<nat>, k: nat)
    requires IsMerge(streams, sections, toSection) && k < |streams|
    ensures toSection[k] < |sections| && InSectionExists(streams, streams[k].section)
    ensures sections[toSection[k]].build == MergedSection(streams, streams[k].section)
  {
    hide MergedSection;
  }

  lemma FoldedSized(c: Context, d: Definitions, data: seq<byte>, relas: seq<Rela>, symbols: seq<Symbol>)
    requires Folded(c, d, data, relas, symbols)
    ensures |c.long| == |c.sb.items|
  {
  }

  /** One field of one data item of a folded section. */
  lemma ItemFieldLinks(c: Context, d: Definitions, data: seq<byte>, relas: seq<Rela>, symbols: seq<Symbol>, link: Link,
                       m: nat, item: Item, j: nat)
    requires Folded(c, d, data, relas, symbols) && m < |c.sb.items| && c.sb.items[m] == item
    requires item.Data? && j < |item.values|
    ensures var at := FieldStart(Pos(c, m), item.width, j);
            && at + item.width <= |data|
            && Linked(data, relas, symbols, link, c.index, at, item.width)
               == DataMeaning(d, link, c.index, item.values[j], at) % Pow256(item.width)
  {
    hide Image, ItemPiece, SectionSettled, KeptOutside, EncoderOk, DataMeaning, Linked, Pos, Agrees, Pow256;
    ItemAtOffset(c, m, |c.sb.items|);
    assert IsField(c, m, j);
    DataFieldLinks(c, d, data, relas, symbols, link, m, j);
  }

  /**
    What a subsection stream asked for is what the object holds: every data field of every stream links,
    for every link, to the value of its number, symbol or difference. The field stands where its item does:
    behind the streams merged in front, the items before it and the fields before it.
   */
  lemma StreamFieldLinks(streams: seq<Subsection>, sections: seq<NamedSection>, toSection: seq<nat>, k: nat, i: nat, j: nat,
                         c: Context, d: Definitions, data: seq<byte>, relas: seq<Rela>, symbols: seq<Symbol>, link: Link)
    returns (u: nat, at: nat)
    requires MergeInput(streams) && IsMerge(streams, sections, toSection) && k < |streams| && i < |streams[k].build.items|
    requires streams[k].build.items[i].Data? && j < |streams[k].build.items[i].values|
    requires toSection[k] < |sections| && c.sb == sections[toSection[k]].build && Folded(c, d, data, relas, symbols)
    ensures IsMemberAt(streams, k, u) && StreamBase(streams, k, u) + i < |c.sb.items|
    ensures at == FieldStart(Pos(c, StreamBase(streams, k, u) + i), streams[k].build.items[i].width, j)
    ensures var item := streams[k].build.items[i];
            && at + item.width <= |data|
            && Linked(data, relas, symbols, link, c.index, at, item.width)
               == DataMeaning(d, link, c.index, item.values[j], at) % Pow256(item.width)
  {
    hide IsMerge, MergeInput, Folded, FieldStart, Pos, DataMeaning, Linked, IsMemberAt, StreamBase, Pow256;
    FoldedSized(c, d, data, relas, symbols);
    var m;
    u, m := StreamItem(streams, sections, toSection, k, i);
    at := FieldStart(Pos(c, m), streams[k].build.items[i].width, j);
    ItemFieldLinks(c, d, data, relas, symbols, link, m, streams[k].build.items[i], j);
  }
}
