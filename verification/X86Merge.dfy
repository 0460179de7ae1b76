/**
  Subsection merging: every `.section name, n` stream of one section is concatenated in
  numeric order before relaxation, and its labels are rebased to the merged item list.
 */
module X86Merge {
  import opened Words
  import opened Sorting
  import opened X86Layout

  datatype Subsection = Subsection(section: string, number: nat, build: SecBuild)
  datatype NamedSection = NamedSection(name: string, build: SecBuild)

  /** What pass 1 guarantees: labels are unique in the file, and a section has one type and one set of flags. */
  ghost predicate MergeInput(streams: seq<Subsection>) {
    && (forall k :: 0 <= k < |streams| ==> WellFormed(streams[k].build))
    && (forall j, k :: 0 <= j < |streams| && 0 <= k < |streams| && j != k ==>
          streams[j].build.labels.Keys !! streams[k].build.labels.Keys)
    && (forall j, k :: 0 <= j < |streams| && 0 <= k < |streams| && streams[j].section == streams[k].section ==>
          streams[j].build.shType == streams[k].build.shType && streams[j].build.shFlags == streams[k].build.shFlags)
  }

  // ---- specification ---------------------------------------------------------

  /** Section names in order of first use. */
  function FirstUses(streams: seq<Subsection>): seq<string> {
    if streams == [] then []
    else
      var last := |streams| - 1;
      var before := FirstUses(streams[..last]);
      if streams[last].section in before then before else before + [streams[last].section]
  }

  function IndexMap(names: seq<string>): map<string, nat> {
    if names == [] then map[]
    else
      var last := |names| - 1;
      IndexMap(names[..last])[names[last] := last]
  }

  function SectionIndex(index: map<string, nat>, name: string): nat {
    if name in index then index[name] else 0
  }

  function StreamOrder(streams: seq<Subsection>, index: map<string, nat>): ((nat, nat) -> bool) {
    (j: nat, k: nat) =>
      if j < |streams| && k < |streams| then
        var sj, sk := SectionIndex(index, streams[j].section), SectionIndex(index, streams[k].section);
        sj < sk || (sj == sk && streams[j].number <= streams[k].number)
      else k >= |streams|
  }

  /** All streams, by section and then by subsection number. */
  function SortedStreams(streams: seq<Subsection>): seq<nat> {
    StableSort(Indices(|streams|), StreamOrder(streams, IndexMap(FirstUses(streams))))
  }

  predicate IsMember(streams: seq<Subsection>, name: string, k: nat) {
    k < |streams| && streams[k].section == name
  }

  function SectionFilter(streams: seq<Subsection>, name: string): (nat -> bool) {
    (k: nat) => IsMember(streams, name, k)
  }

  predicate AllInSection(streams: seq<Subsection>, name: string, ks: seq<nat>) {
    forall u :: 0 <= u < |ks| ==> IsMember(streams, name, ks[u])
  }

  /** The streams of one section in the order in which they are concatenated. */
  function Members(streams: seq<Subsection>, name: string): (ks: seq<nat>)
    ensures AllInSection(streams, name, ks)
  {
    FilterAll(SortedStreams(streams), SectionFilter(streams, name));
    var ks := Filter(SortedStreams(streams), SectionFilter(streams, name));
    assert forall u :: 0 <= u < |ks| ==> ks[u] in ks;
    ks
  }

  function BuildsOf(streams: seq<Subsection>, name: string, ks: seq<nat>): (builds: seq<SecBuild>)
    requires AllInSection(streams, name, ks)
    ensures |builds| == |ks|
    ensures forall u :: 0 <= u < |ks| ==> builds[u] == streams[ks[u]].build
  {
    seq(|ks|, u requires 0 <= u < |ks| => streams[ks[u]].build)
  }

  function AppendStream(target: SecBuild, build: SecBuild): SecBuild {
    target.(items := target.items + build.items,
            labels := target.labels + map l | l in build.labels :: |target.items| + build.labels[l],
            labelOrder := target.labelOrder + build.labelOrder,
            maxAlign := Max(target.maxAlign, build.maxAlign))
  }

  function EmptySection(header: SecBuild): SecBuild {
    header.(items := [], labels := map[], labelOrder := [], maxAlign := 0)
  }

  function Concat(builds: seq<SecBuild>, header: SecBuild): SecBuild {
    if builds == [] then EmptySection(header)
    else
      var last := |builds| - 1;
      AppendStream(Concat(builds[..last], header), builds[last])
  }

  function MergedSection(streams: seq<Subsection>, name: string): SecBuild
    requires InSectionExists(streams, name)
  {
    Concat(BuildsOf(streams, name, Members(streams, name)), HeaderOf(streams, name))
  }

  predicate InSectionExists(streams: seq<Subsection>, name: string) {
    exists k :: 0 <= k < |streams| && streams[k].section == name
  }

  /** The last stream of the section supplies its type and flags. */
  function HeaderOf(streams: seq<Subsection>, name: string): SecBuild
    requires InSectionExists(streams, name)
    decreases |streams|
  {
    var last := |streams| - 1;
    if streams[last].section == name then streams[last].build
    else
      assert InSectionExists(streams[..last], name) by {
        var k :| 0 <= k < |streams| && streams[k].section == name;
        assert streams[..last][k] == streams[k];
      }
      HeaderOf(streams[..last], name)
  }

  lemma {:induction false} HeaderFrom(streams: seq<Subsection>, name: string)
    requires InSectionExists(streams, name)
    ensures exists k :: 0 <= k < |streams| && streams[k].section == name && HeaderOf(streams, name) == streams[k].build
    decreases |streams|
  {
    var last := |streams| - 1;
    if streams[last].section != name {
      var k :| 0 <= k < |streams| && streams[k].section == name;
      assert streams[..last][k] == streams[k];
      HeaderFrom(streams[..last], name);
      var m :| 0 <= m < last && streams[..last][m].section == name && HeaderOf(streams[..last], name) == streams[..last][m].build;
      assert streams[m].section == name;
    }
  }

  // ---- the merge -----------------------------------------------------------------

  /** Names are distinct and are exactly the names in use. */
  lemma {:induction false} FirstUsesNames(streams: seq<Subsection>)
    ensures var names := FirstUses(streams);
            && (forall k :: 0 <= k < |streams| ==> streams[k].section in names)
            && (forall s :: 0 <= s < |names| ==> InSectionExists(streams, names[s]))
            && (forall s, t :: 0 <= s < t < |names| ==> names[s] != names[t])
  {
    if streams != [] {
      var last := |streams| - 1;
      FirstUsesNames(streams[..last]);
      var names, before := FirstUses(streams), FirstUses(streams[..last]);
      forall k | 0 <= k < |streams| ensures streams[k].section in names {
        assert k < last ==> streams[..last][k].section in before;
      }
      forall s | 0 <= s < |names| ensures InSectionExists(streams, names[s]) {
        if s < |before| {
          assert InSectionExists(streams[..last], before[s]);
          var k :| 0 <= k < last && streams[..last][k].section == before[s];
          assert streams[k].section == names[s];
        }
      }
    }
  }

  lemma {:induction false} IndexMapInverse(names: seq<string>)
    requires forall s, t :: 0 <= s < t < |names| ==> names[s] != names[t]
    ensures forall s :: 0 <= s < |names| ==> names[s] in IndexMap(names) && IndexMap(names)[names[s]] == s
    ensures forall name :: name in IndexMap(names) ==> IndexMap(names)[name] < |names| && names[IndexMap(names)[name]] == name
  {
    if names != [] {
      IndexMapInverse(names[..|names| - 1]);
    }
  }

  method SectionOrder(streams: seq<Subsection>) returns (names: seq<string>, index: map<string, nat>)
    ensures names == FirstUses(streams) && index == IndexMap(names)
  {
    names, index := [], map[];
    var k := 0;
    while k < |streams|
      invariant 0 <= k <= |streams|
      invariant names == FirstUses(streams[..k]) && index == IndexMap(names)
    {
      var name := streams[k].section;
      SectionOrderStep(streams, k, name);
      if name !in index {
        index := index[name := |names|];
        names := names + [name];
      }
      k := k + 1;
    }
    TakeAll(streams);
  }

  lemma SectionOrderStep(streams: seq<Subsection>, k: nat, name: string)
    requires k < |streams| && streams[k].section == name
    ensures var names := FirstUses(streams[..k]);
            if name in IndexMap(names) then FirstUses(streams[..k + 1]) == names
            else FirstUses(streams[..k + 1]) == names + [name]
                 && IndexMap(names + [name]) == IndexMap(names)[name := |names|]
  {
    hide InSectionExists, FirstUses, IndexMap;
    FirstUsesNext(streams, k, name);
    var names := FirstUses(streams[..k]);
    FirstUsesNames(streams[..k]);
    IndexMapInverse(names);
    IndexMapNext(names, name);
  }

  lemma FirstUsesNext(streams: seq<Subsection>, k: nat, name: string)
    requires k < |streams| && streams[k].section == name
    ensures var names := FirstUses(streams[..k]);
            FirstUses(streams[..k + 1]) == if name in names then names else names + [name]
  {
    assert streams[..k + 1][..k] == streams[..k];
  }

  lemma IndexMapNext(names: seq<string>, name: string)
    ensures IndexMap(names + [name]) == IndexMap(names)[name := |names|]
  {
    assert (names + [name])[..|names|] == names;
  }

  lemma HeadersStep(streams: seq<Subsection>, k: nat)
    requires k < |streams|
    ensures forall name :: InSectionExists(streams[..k + 1], name) <==>
              (InSectionExists(streams[..k], name) || name == streams[k].section)
  {
    var longer, shorter := streams[..k + 1], streams[..k];
    assert longer[k] == streams[k];
    forall name ensures InSectionExists(longer, name) <==> (InSectionExists(shorter, name) || name == streams[k].section) {
      if InSectionExists(shorter, name) {
        var j :| 0 <= j < |shorter| && shorter[j].section == name;
        assert longer[j].section == name;
      }
      if InSectionExists(longer, name) && name != streams[k].section {
        var j :| 0 <= j < |longer| && longer[j].section == name;
        assert shorter[j].section == name;
      }
    }
  }

  method SectionHeaders(streams: seq<Subsection>) returns (headers: map<string, SecBuild>)
    ensures forall name :: name in headers <==> InSectionExists(streams, name)
    ensures forall name <- headers :: headers[name] == HeaderOf(streams, name)
  {
    headers := map[];
    var k := 0;
    while k < |streams|
      invariant 0 <= k <= |streams|
      invariant forall name :: name in headers <==> InSectionExists(streams[..k], name)
      invariant forall name <- headers :: headers[name] == HeaderOf(streams[..k], name)
    {
      assert streams[..k + 1][..k] == streams[..k];
      assert forall j :: 0 <= j < k ==> streams[..k + 1][j] == streams[..k][j];
      HeadersStep(streams, k);
      headers := headers[streams[k].section := streams[k].build];
      k := k + 1;
    }
    assert streams[..k] == streams;
  }

  method MergeSubsections(streams: seq<Subsection>) returns (sections: seq<NamedSection>, toSection: seq<nat>)
    ensures IsMerge(streams, sections, toSection)
  {
    hide FirstUses, IndexMap, SortedStreams, AppendStream, MergedSoFar;
    var names, index := SectionOrder(streams);
    var order := SortedStreams(streams);
    SectionTable(streams);
    sections := CreateSections(streams, names);
    toSection := seq(|streams|, _ => 0);
    var t := 0;
    while t < |order|
      invariant 0 <= t <= |order| && |toSection| == |streams| && |sections| == |names|
      invariant AssignedSoFar(streams, index, toSection, order[..t])
      invariant AllMerged(streams, names, sections, order[..t])
    {
      var k := order[t];
      var s := index[streams[k].section];
      TakeStep(order, t);
      MergeStep(streams, names, sections, order[..t], k, s);
      AssignStep(streams, index, toSection, order[..t], k);
      toSection := toSection[k := s];
      sections := sections[s := NamedSection(names[s], AppendStream(sections[s].build, streams[k].build))];
      t := t + 1;
    }
    TakeAll(order);
    FinishMerge(streams, sections, toSection);
  }

  /** One section per name in order of first use, each the concatenation of its streams. */
  ghost predicate IsMerge(streams: seq<Subsection>, sections: seq<NamedSection>, toSection: seq<nat>) {
    && |sections| == |FirstUses(streams)|
    && (forall s :: 0 <= s < |sections| ==>
          && sections[s].name == FirstUses(streams)[s]
          && InSectionExists(streams, sections[s].name)
          && sections[s].build == MergedSection(streams, sections[s].name))
    && |toSection| == |streams|
    && (forall k :: 0 <= k < |streams| ==> toSection[k] < |sections| && sections[toSection[k]].name == streams[k].section)
  }

  lemma FinishMerge(streams: seq<Subsection>, sections: seq<NamedSection>, toSection: seq<nat>)
    requires AllMerged(streams, FirstUses(streams), sections, SortedStreams(streams))
    requires AssignedSoFar(streams, IndexMap(FirstUses(streams)), toSection, SortedStreams(streams))
    ensures IsMerge(streams, sections, toSection)
  {
    var names := FirstUses(streams);
    SectionTable(streams);
    AllAssigned(streams, IndexMap(names), toSection, SortedStreams(streams));
    forall s | 0 <= s < |sections|
      ensures sections[s].name == names[s] && sections[s].build == MergedSection(streams, names[s])
    {
      assert MergedSoFar(streams, sections[s], names[s], SortedStreams(streams));
    }
  }

  ghost predicate AssignedSoFar(streams: seq<Subsection>, index: map<string, nat>, toSection: seq<nat>, done: seq<nat>) {
    && |toSection| == |streams|
    && forall u :: 0 <= u < |done| ==>
         done[u] < |streams| && toSection[done[u]] == SectionIndex(index, streams[done[u]].section)
  }

  lemma AssignStep(streams: seq<Subsection>, index: map<string, nat>, toSection: seq<nat>, done: seq<nat>, k: nat)
    requires AssignedSoFar(streams, index, toSection, done) && k < |streams|
    ensures AssignedSoFar(streams, index, toSection[k := SectionIndex(index, streams[k].section)], done + [k])
  {
  }

  lemma AllAssigned(streams: seq<Subsection>, index: map<string, nat>, toSection: seq<nat>, order: seq<nat>)
    requires AssignedSoFar(streams, index, toSection, order) && IsPermutation(order, |streams|)
    ensures forall k :: 0 <= k < |streams| ==> toSection[k] == SectionIndex(index, streams[k].section)
  {
    forall k | 0 <= k < |streams| ensures toSection[k] == SectionIndex(index, streams[k].section) {
      assert k in order;
    }
  }

  /** What the loops rely on: the processing order is a permutation, every stream has a section of its name. */
  lemma SectionTable(streams: seq<Subsection>)
    ensures IsPermutation(SortedStreams(streams), |streams|)
    ensures var names := FirstUses(streams);
            && (forall s, t :: 0 <= s < t < |names| ==> names[s] != names[t])
            && (forall s :: 0 <= s < |names| ==> InSectionExists(streams, names[s]))
            && forall k :: 0 <= k < |streams| ==>
                 var name := streams[k].section;
                 name in IndexMap(names) && IndexMap(names)[name] < |names| && names[IndexMap(names)[name]] == name
  {
    FirstUsesNames(streams);
    IndexMapInverse(FirstUses(streams));
    SortPermutes(|streams|, StreamOrder(streams, IndexMap(FirstUses(streams))));
  }

  ghost predicate AllMerged(streams: seq<Subsection>, names: seq<string>, sections: seq<NamedSection>, done: seq<nat>) {
    |sections| == |names| && forall s :: 0 <= s < |sections| ==> MergedSoFar(streams, sections[s], names[s], done)
  }

  lemma TakeAll<T>(s: seq<T>)
    ensures s[..|s|] == s
  {
  }

  lemma TakeStep<T>(s: seq<T>, t: nat)
    requires t < |s|
    ensures s[..t + 1] == s[..t] + [s[t]]
  {
  }

  method CreateSections(streams: seq<Subsection>, names: seq<string>) returns (sections: seq<NamedSection>)
    requires forall s :: 0 <= s < |names| ==> InSectionExists(streams, names[s])
    ensures AllMerged(streams, names, sections, [])
  {
    var headers := SectionHeaders(streams);
    sections := [];
    while |sections| < |names|
      invariant |sections| <= |names|
      invariant forall s :: 0 <= s < |sections| ==> MergedSoFar(streams, sections[s], names[s], [])
    {
      var name := names[|sections|];
      sections := sections + [NamedSection(name, EmptySection(headers[name]))];
    }
  }

  /** The section holds the streams already processed, in processing order. */
  ghost predicate MergedSoFar(streams: seq<Subsection>, section: NamedSection, name: string, done: seq<nat>) {
    && InSectionExists(streams, name) && section.name == name
    && var ks := Filter(done, SectionFilter(streams, name));
       && AllInSection(streams, name, ks)
       && section.build == Concat(BuildsOf(streams, name, ks), HeaderOf(streams, name))
  }

  lemma MergeStep(streams: seq<Subsection>, names: seq<string>, sections: seq<NamedSection>, done: seq<nat>, k: nat, s: nat)
    requires k < |streams| && |sections| == |names| && s < |names| && names[s] == streams[k].section
    requires forall q, r :: 0 <= q < r < |names| ==> names[q] != names[r]
    requires AllMerged(streams, names, sections, done)
    ensures AllMerged(streams, names, sections[s := NamedSection(names[s], AppendStream(sections[s].build, streams[k].build))],
                      done + [k])
  {
    var one: seq<nat> := [k];
    assert done + one == done + [k];
    forall q | 0 <= q < |sections|
      ensures MergedSoFar(streams,
                          if q == s then NamedSection(names[s], AppendStream(sections[s].build, streams[k].build)) else sections[q],
                          names[q], done + one)
    {
      var p := SectionFilter(streams, names[q]);
      var ks := Filter(done, p);
      FilterAppend(done, one, p);
      assert Filter(one, p) == if p(k) then one else [] by { assert one[1..] == []; }
      if q == s {
        var builds := BuildsOf(streams, names[q], ks + one);
        assert builds[..|ks|] == BuildsOf(streams, names[q], ks);
      } else {
        assert ks + [] == ks;
      }
    }
  }

  // ---- nothing lost, nothing added, nothing reordered ----------------------------------

  /** A stream sits unchanged in its section: items, label positions, label order, alignment. */
  ghost predicate StreamPlaced(stream: SecBuild, target: SecBuild, itemBase: nat, labelBase: nat) {
    && SliceAt(target.items, itemBase, stream.items)
    && SliceAt(target.labelOrder, labelBase, stream.labelOrder)
    && (forall l <- stream.labels :: l in target.labels && target.labels[l] == itemBase + stream.labels[l])
    && stream.maxAlign <= target.maxAlign
  }

  ghost predicate DisjointLabels(builds: seq<SecBuild>) {
    forall u, v :: 0 <= u < v < |builds| ==> builds[u].labels.Keys !! builds[v].labels.Keys
  }

  /** Number of items in the first u streams: where stream u starts. */
  function ItemBase(builds: seq<SecBuild>, u: nat): nat
    requires u <= |builds|
  {
    if u == 0 then 0 else ItemBase(builds, u - 1) + |builds[u - 1].items|
  }

  function LabelBase(builds: seq<SecBuild>, u: nat): nat
    requires u <= |builds|
  {
    if u == 0 then 0 else LabelBase(builds, u - 1) + |builds[u - 1].labelOrder|
  }

  lemma {:induction false} BasePrefix(builds: seq<SecBuild>, last: nat, u: nat)
    requires u <= last <= |builds|
    ensures ItemBase(builds[..last], u) == ItemBase(builds, u)
    ensures LabelBase(builds[..last], u) == LabelBase(builds, u)
  {
    if u > 0 {
      BasePrefix(builds, last, u - 1);
    }
  }

  lemma {:induction false} ConcatSizes(builds: seq<SecBuild>, header: SecBuild)
    ensures |Concat(builds, header).items| == ItemBase(builds, |builds|)
    ensures |Concat(builds, header).labelOrder| == LabelBase(builds, |builds|)
    ensures Concat(builds, header).shType == header.shType && Concat(builds, header).shFlags == header.shFlags
  {
    if builds != [] {
      var last := |builds| - 1;
      ConcatSizes(builds[..last], header);
      BasePrefix(builds, last, last);
    }
  }

  /** Labels of the concatenation are exactly the labels of its streams, and the alignment is one of theirs. */
  lemma {:induction false} ConcatOrigins(builds: seq<SecBuild>, header: SecBuild)
    ensures var merged := Concat(builds, header);
            && (forall l :: l in merged.labels <==> exists u :: 0 <= u < |builds| && l in builds[u].labels)
            && (merged.maxAlign == 0 || exists u :: 0 <= u < |builds| && merged.maxAlign == builds[u].maxAlign)
  {
    if builds != [] {
      var last := |builds| - 1;
      ConcatOrigins(builds[..last], header);
      assert forall u :: 0 <= u < last ==> builds[..last][u] == builds[u];
    }
  }

  lemma AppendKeepsPlaces(stream: SecBuild, before: SecBuild, build: SecBuild, itemBase: nat, labelBase: nat)
    requires StreamPlaced(stream, before, itemBase, labelBase) && stream.labels.Keys !! build.labels.Keys
    ensures StreamPlaced(stream, AppendStream(before, build), itemBase, labelBase)
  {
    SliceKept(before.items, build.items, itemBase, stream.items);
    SliceKept(before.labelOrder, build.labelOrder, labelBase, stream.labelOrder);
  }

  lemma AppendPlacesLast(before: SecBuild, build: SecBuild)
    ensures StreamPlaced(build, AppendStream(before, build), |before.items|, |before.labelOrder|)
  {
  }

  lemma {:induction false} ConcatPlaces(builds: seq<SecBuild>, header: SecBuild, u: nat)
    requires DisjointLabels(builds) && u < |builds|
    ensures StreamPlaced(builds[u], Concat(builds, header), ItemBase(builds, u), LabelBase(builds, u))
    decreases |builds|
  {
    hide StreamPlaced, AppendStream;
    var last := |builds| - 1;
    var before := Concat(builds[..last], header);
    if u < last {
      assert builds[..last][u] == builds[u];
      assert DisjointLabels(builds[..last]);
      ConcatPlaces(builds[..last], header, u);
      BasePrefix(builds, last, u);
      assert builds[u].labels.Keys !! builds[last].labels.Keys;
      AppendKeepsPlaces(builds[u], before, builds[last], ItemBase(builds, u), LabelBase(builds, u));
    } else {
      ConcatSizes(builds[..last], header);
      BasePrefix(builds, last, last);
      AppendPlacesLast(before, builds[last]);
    }
  }

  lemma {:induction false} BaseMonotone(builds: seq<SecBuild>, u: nat, v: nat)
    requires u < v <= |builds|
    ensures ItemBase(builds, u) + |builds[u].items| <= ItemBase(builds, v)
    decreases v - u
  {
    if u + 1 < v {
      BaseMonotone(builds, u, v - 1);
    }
  }

  /** Members of the section are related by `Precedes`; other streams are unconstrained. */
  function PrecedesIn(streams: seq<Subsection>, name: string): ((nat, nat) -> bool) {
    (j: nat, k: nat) => IsMember(streams, name, j) && IsMember(streams, name, k) ==> Precedes(streams, j, k)
  }

  lemma SortedStreamsPairwise(streams: seq<Subsection>, name: string)
    ensures IsPermutation(SortedStreams(streams), |streams|)
    ensures Pairwise(SortedStreams(streams), PrecedesIn(streams, name))
  {
    var index := IndexMap(FirstUses(streams));
    var le := StreamOrder(streams, index);
    var order := SortedStreams(streams);
    StreamOrderTotal(streams, index);
    SortIndices(|streams|, le);
    forall t, u | 0 <= t < u < |order| ensures PrecedesIn(streams, name)(order[t], order[u]) {
      if le(order[u], order[t]) {
        SortTies(|streams|, le, t, u);
      }
      SortedPair(streams, name, index, order[t], order[u]);
    }
  }

  lemma SortedPair(streams: seq<Subsection>, name: string, index: map<string, nat>, j: nat, k: nat)
    requires StreamOrder(streams, index)(j, k) && (StreamOrder(streams, index)(k, j) ==> j < k)
    ensures PrecedesIn(streams, name)(j, k)
  {
  }

  /** The streams of a section: each exactly once, ordered by number and then by source order. */
  lemma MembersOrdered(streams: seq<Subsection>, name: string)
    ensures forall k: nat :: k in Members(streams, name) <==> IsMember(streams, name, k)
    ensures var ks := Members(streams, name);
            forall u, v :: 0 <= u < v < |ks| ==> Precedes(streams, ks[u], ks[v])
  {
    var order := SortedStreams(streams);
    SortedStreamsPairwise(streams, name);
    FilterAll(order, SectionFilter(streams, name));
    FilteredPairs(order, SectionFilter(streams, name), PrecedesIn(streams, name));
    var ks := Members(streams, name);
    forall u, v | 0 <= u < v < |ks| ensures Precedes(streams, ks[u], ks[v]) {
      assert PrecedesIn(streams, name)(ks[u], ks[v]);
    }
  }

  lemma StreamOrderTotal(streams: seq<Subsection>, index: map<string, nat>)
    ensures TotalPreorder(StreamOrder(streams, index))
  {
  }

  /** Stream j comes before stream k inside their common section. */
  predicate Precedes(streams: seq<Subsection>, j: nat, k: nat)
    requires j < |streams| && k < |streams|
  {
    streams[j].number < streams[k].number || (streams[j].number == streams[k].number && j < k)
  }

  lemma MembersDisjoint(streams: seq<Subsection>, name: string)
    requires MergeInput(streams)
    ensures DisjointLabels(BuildsOf(streams, name, Members(streams, name)))
  {
    MembersOrdered(streams, name);
    var ks := Members(streams, name);
    forall u, v | 0 <= u < v < |ks|
      ensures streams[ks[u]].build.labels.Keys !! streams[ks[v]].build.labels.Keys
    {
      assert Precedes(streams, ks[u], ks[v]);
    }
  }

  /**
    Every stream survives the merge: its items form one contiguous run of the merged section, every
    label still denotes the boundary it denoted in the stream, and the section's alignment bounds the stream's.
   */
  lemma MergeConservesStreams(streams: seq<Subsection>, k: nat) returns (u: nat)
    requires MergeInput(streams) && k < |streams|
    ensures var name := streams[k].section;
            var ks := Members(streams, name);
            var builds := BuildsOf(streams, name, ks);
            && u < |ks| && ks[u] == k
            && StreamPlaced(streams[k].build, MergedSection(streams, name), ItemBase(builds, u), LabelBase(builds, u))
            && MergedSection(streams, name).shType == streams[k].build.shType
            && MergedSection(streams, name).shFlags == streams[k].build.shFlags
  {
    var name := streams[k].section;
    var ks := Members(streams, name);
    MembersOrdered(streams, name);
    assert IsMember(streams, name, k);
    u :| u < |ks| && ks[u] == k;
    MembersDisjoint(streams, name);
    var header := HeaderOf(streams, name);
    ConcatPlaces(BuildsOf(streams, name, ks), header, u);
    ConcatSizes(BuildsOf(streams, name, ks), header);
    HeaderFrom(streams, name);
  }

  /** Streams of one section do not overlap and appear by subsection number, then source order. */
  lemma MergeKeepsOrder(streams: seq<Subsection>, name: string, u: nat, v: nat)
    requires u < |Members(streams, name)| && v < |Members(streams, name)|
    requires Precedes(streams, Members(streams, name)[u], Members(streams, name)[v])
    ensures var builds := BuildsOf(streams, name, Members(streams, name));
            ItemBase(builds, u) + |builds[u].items| <= ItemBase(builds, v)
  {
    MembersOrdered(streams, name);
    BaseMonotone(BuildsOf(streams, name, Members(streams, name)), u, v);
  }

  /** Nothing is added: items, labels and alignment of the merged section all come from its streams. */
  lemma MergeAddsNothing(streams: seq<Subsection>, name: string)
    requires MergeInput(streams) && InSectionExists(streams, name)
    ensures var merged := MergedSection(streams, name);
            var builds := BuildsOf(streams, name, Members(streams, name));
            && |merged.items| == ItemBase(builds, |builds|)
            && (forall l :: l in merged.labels <==> exists u :: 0 <= u < |builds| && l in builds[u].labels)
            && (merged.maxAlign == 0 || exists u :: 0 <= u < |builds| && merged.maxAlign == builds[u].maxAlign)
            && WellFormed(merged)
  {
    var header := HeaderOf(streams, name);
    var builds := BuildsOf(streams, name, Members(streams, name));
    var merged := MergedSection(streams, name);
    MembersDisjoint(streams, name);
    ConcatSizes(builds, header);
    ConcatOrigins(builds, header);
    forall l | l in merged.labels ensures merged.labels[l] <= |merged.items| {
      var u :| 0 <= u < |builds| && l in builds[u].labels;
      ConcatPlaces(builds, header, u);
      BaseMonotone(builds, u, |builds|);
      assert IsMember(streams, name, Members(streams, name)[u]);
    }
    forall u | 0 <= u < |builds| ensures WellFormed(builds[u]) {
      assert IsMember(streams, name, Members(streams, name)[u]);
    }
    ConcatOrder(builds, header);
  }

  ghost predicate OrderKnown(build: SecBuild) {
    forall k :: 0 <= k < |build.labelOrder| ==> build.labelOrder[k] in build.labels
  }

  lemma AppendOrder(target: SecBuild, build: SecBuild)
    requires OrderKnown(target) && OrderKnown(build)
    ensures OrderKnown(AppendStream(target, build))
  {
    var both := AppendStream(target, build);
    forall k | 0 <= k < |both.labelOrder| ensures both.labelOrder[k] in both.labels {
      if k < |target.labelOrder| {
        assert both.labelOrder[k] == target.labelOrder[k];
      } else {
        var l := build.labelOrder[k - |target.labelOrder|];
        assert both.labelOrder[k] == l && l in build.labels;
      }
    }
  }

  lemma {:induction false} ConcatOrder(builds: seq<SecBuild>, header: SecBuild)
    requires forall u :: 0 <= u < |builds| ==> WellFormed(builds[u])
    ensures OrderKnown(Concat(builds, header))
  {
    if builds != [] {
      var last := |builds| - 1;
      ConcatOrder(builds[..last], header);
      assert WellFormed(builds[last]);
      AppendOrder(Concat(builds[..last], header), builds[last]);
    }
  }
}
