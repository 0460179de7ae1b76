/**
  The Mach-O string table (src/macho.rs). Names are finished in descending reverse-lexicographic
  order and a trie over reversed names finds a stored string that ends with the next name, so that
  the two share bytes. Names are byte strings without NUL.
 */
module MachoStrings {
  import opened Words
  import opened Sorting

  predicate NulFree(s: bytes) {
    0 !in s
  }

  predicate IsSuffix(s: bytes, t: bytes) {
    |s| <= |t| && t[|t| - |s|..] == s
  }

  /** The string and its terminator stand at q. */
  predicate Occurs(table: bytes, q: nat, s: bytes) {
    q + |s| < |table| && table[q..q + |s|] == s && table[q + |s|] == 0
  }

  /** The earliest occurrence behind the initial NUL. */
  ghost predicate FirstOccurrence(table: bytes, at: nat, s: bytes) {
    at >= 1 && Occurs(table, at, s) && forall q :: 1 <= q < at ==> !Occurs(table, q, s)
  }

  lemma FirstKept(table: bytes, more: bytes, at: nat, s: bytes)
    requires FirstOccurrence(table, at, s)
    ensures FirstOccurrence(table + more, at, s)
  {
    assert (table + more)[at..at + |s|] == table[at..at + |s|];
    forall q | 1 <= q < at ensures !Occurs(table + more, q, s) {
      assert (table + more)[q..q + |s|] == table[q..q + |s|];
      assert !Occurs(table, q, s);
    }
  }

  /** Appending a terminated name adds exactly the occurrences of its suffixes. */
  lemma NewOccurrences(table: bytes, name: bytes, q: nat, s: bytes)
    requires table != [] && table[|table| - 1] == 0 && NulFree(name) && NulFree(s)
    ensures Occurs(table + name + [0], q, s) <==>
              Occurs(table, q, s) || (IsSuffix(s, name) && q == |table| + |name| - |s|)
  {
    var longer := table + name + [0];
    var end := q + |s|;
    assert forall k :: |table| <= k < |longer| - 1 ==> longer[k] == name[k - |table|];
    if Occurs(longer, q, s) {
      assert forall k :: q <= k < end ==> longer[k] == s[k - q];
      if end < |table| {
        assert longer[q..end] == table[q..end];
      } else {
        assert end == |longer| - 1;
        assert longer[|table| - 1] == 0 && q >= |table|;
        assert longer[q..end] == name[q - |table|..];
      }
    }
    if Occurs(table, q, s) {
      assert longer[q..end] == table[q..end];
    }
    if IsSuffix(s, name) && q == |table| + |name| - |s| {
      assert longer[q..end] == name[|name| - |s|..];
    }
  }

  // ---- the trie -----------------------------------------------------------------------

  /** `labels[n]` is the string a path from the root to node n spells backwards. */
  ghost predicate Tree(edges: map<(nat, byte), nat>, labels: seq<bytes>) {
    && labels != [] && labels[0] == []
    && (forall i, j :: 0 <= i < j < |labels| ==> labels[i] != labels[j])
    && (forall e <- edges :: e.0 < |labels| && edges[e] < |labels| && labels[edges[e]] == [e.1] + labels[e.0])
    && (forall c :: 0 < c < |labels| ==> HasParent(edges, labels, c))
  }

  lemma TreeShape(edges: map<(nat, byte), nat>, labels: seq<bytes>)
    requires Tree(edges, labels)
    ensures labels != [] && labels[0] == [] && forall i, j :: 0 <= i < j < |labels| ==> labels[i] != labels[j]
  {
  }

  ghost predicate HasParent(edges: map<(nat, byte), nat>, labels: seq<bytes>, c: nat)
    requires c < |labels|
  {
    && labels[c] != []
    && exists n: nat :: n < |labels| && labels[n] == labels[c][1..] && (n, labels[c][0]) in edges && edges[(n, labels[c][0])] == c
  }

  lemma ParentEdge(edges: map<(nat, byte), nat>, labels: seq<bytes>, c: nat, node: nat)
    requires Tree(edges, labels) && c < |labels| && node < |labels| && labels[c] != [] && labels[c][1..] == labels[node]
    ensures (node, labels[c][0]) in edges && edges[(node, labels[c][0])] == c
  {
    assert HasParent(edges, labels, c);
    var n: nat :| n < |labels| && labels[n] == labels[c][1..] && (n, labels[c][0]) in edges && edges[(n, labels[c][0])] == c;
    assert n == node;
  }

  /** A missing edge means the longer string is not in the trie. */
  lemma MissingEdge(edges: map<(nat, byte), nat>, labels: seq<bytes>, node: nat, b: byte)
    requires Tree(edges, labels) && node < |labels| && (node, b) !in edges
    ensures [b] + labels[node] !in labels
  {
    var s := [b] + labels[node];
    assert s[1..] == labels[node];
    if s in labels {
      var c :| 0 <= c < |labels| && labels[c] == s;
      ParentEdge(edges, labels, c, node);
      assert false;
    }
  }

  lemma AddNode(edges: map<(nat, byte), nat>, labels: seq<bytes>, node: nat, b: byte)
    requires Tree(edges, labels) && node < |labels| && (node, b) !in edges
    ensures Tree(edges[(node, b) := |labels|], labels + [[b] + labels[node]])
  {
    MissingEdge(edges, labels, node, b);
    var s := [b] + labels[node];
    var edges', labels' := edges[(node, b) := |labels|], labels + [s];
    forall c | 0 < c < |labels'| ensures HasParent(edges', labels', c) {
      if c < |labels| {
        assert HasParent(edges, labels, c);
        var n: nat :| n < |labels| && labels[n] == labels[c][1..] && (n, labels[c][0]) in edges && edges[(n, labels[c][0])] == c;
        assert labels'[n] == labels'[c][1..] && edges'[(n, labels'[c][0])] == c;
      } else {
        assert labels'[node] == s[1..] && edges'[(node, s[0])] == c;
      }
    }
  }

  /** Every recorded offset is the first occurrence of the node's string. */
  ghost predicate Recorded(table: bytes, labels: seq<bytes>, offsets: seq<Option<nat>>) {
    && |offsets| == |labels|
    && (forall n :: 0 <= n < |labels| && offsets[n].Some? ==> FirstOccurrence(table, offsets[n].value, labels[n]))
    && (forall n :: 0 < n < |labels| ==> offsets[n].Some?)
  }

  /** Everything that occurs in the table is in the trie. */
  ghost predicate Covers(table: bytes, labels: seq<bytes>, offsets: seq<Option<nat>>) {
    forall q: nat, s: bytes :: q >= 1 && NulFree(s) && Occurs(table, q, s) ==>
      exists n :: 0 <= n < |labels| && n < |offsets| && labels[n] == s && offsets[n].Some?
  }

  /** The trie holds the empty string and exactly the suffixes of the appended names. */
  ghost predicate HoldsSuffixes(labels: seq<bytes>, appended: seq<bytes>) {
    && (forall s: bytes :: (exists k :: 0 <= k < |appended| && IsSuffix(s, appended[k])) ==> s in labels)
    && (forall n :: 0 <= n < |labels| ==> labels[n] == [] || exists k :: 0 <= k < |appended| && IsSuffix(labels[n], appended[k]))
  }

  /** A suffix of the new name that is not in the trie first occurs inside the new name. */
  lemma NewFirst(table: bytes, labels: seq<bytes>, offsets: seq<Option<nat>>, name: bytes, s: bytes)
    requires table != [] && table[|table| - 1] == 0 && NulFree(name) && IsSuffix(s, name)
    requires Covers(table, labels, offsets)
    requires forall n :: 0 <= n < |labels| && n < |offsets| && labels[n] == s ==> offsets[n].None?
    ensures FirstOccurrence(table + name + [0], |table| + |name| - |s|, s)
  {
    var at: nat := |table| + |name| - |s|;
    SuffixNulFree(s, name);
    NewOccurrences(table, name, at, s);
    forall q | 1 <= q < at ensures !Occurs(table + name + [0], q, s) {
      NewOccurrences(table, name, q, s);
    }
  }

  lemma SuffixNulFree(s: bytes, name: bytes)
    requires NulFree(name) && IsSuffix(s, name)
    ensures NulFree(s)
  {
  }

  lemma DropIsSuffix(name: bytes, i: nat)
    requires i <= |name|
    ensures IsSuffix(name[i..], name)
  {
  }

  lemma SuffixOfSuffix(r: bytes, s: bytes, t: bytes)
    requires IsSuffix(r, s) && IsSuffix(s, t)
    ensures IsSuffix(r, t)
  {
    assert t[|t| - |s|..][|s| - |r|..] == t[|t| - |r|..];
  }

  /** Once every suffix of the new name is in the trie, the trie covers the longer table. */
  lemma CoversLonger(table: bytes, name: bytes, before: seq<bytes>, was: seq<Option<nat>>, labels: seq<bytes>, offsets: seq<Option<nat>>)
    requires table != [] && table[|table| - 1] == 0 && NulFree(name)
    requires Covers(table, before, was) && |before| == |was| <= |labels| == |offsets|
    requires labels[..|before|] == before
    requires forall n :: 0 <= n < |offsets| ==> offsets[n].Some?
    requires forall s: bytes :: IsSuffix(s, name) ==> s in labels
    ensures Covers(table + name + [0], labels, offsets)
  {
    forall q: nat, s: bytes | q >= 1 && NulFree(s) && Occurs(table + name + [0], q, s)
      ensures exists n :: 0 <= n < |labels| && n < |offsets| && labels[n] == s && offsets[n].Some?
    {
      NewOccurrences(table, name, q, s);
      if Occurs(table, q, s) {
        var n :| 0 <= n < |before| && n < |was| && before[n] == s && was[n].Some?;
        assert labels[n] == s;
      } else {
        assert s in labels;
      }
    }
  }

  lemma RecordedLonger(table: bytes, more: bytes, labels: seq<bytes>, offsets: seq<Option<nat>>)
    requires Recorded(table, labels, offsets)
    ensures Recorded(table + more, labels, offsets)
  {
    forall n | 0 <= n < |labels| && offsets[n].Some? ensures FirstOccurrence(table + more, offsets[n].value, labels[n]) {
      FirstKept(table, more, offsets[n].value, labels[n]);
    }
  }

  lemma SuffixesLonger(before: seq<bytes>, labels: seq<bytes>, appended: seq<bytes>, name: bytes)
    requires HoldsSuffixes(before, appended) && |before| <= |labels| && labels[..|before|] == before
    requires forall n :: |before| <= n < |labels| ==> IsSuffix(labels[n], name)
    requires forall s: bytes :: IsSuffix(s, name) ==> s in labels
    ensures HoldsSuffixes(labels, appended + [name])
  {
    var more := appended + [name];
    forall s: bytes | exists k :: 0 <= k < |more| && IsSuffix(s, more[k]) ensures s in labels {
      var k :| 0 <= k < |more| && IsSuffix(s, more[k]);
      if k < |appended| {
        assert appended[k] == more[k];
        assert s in before;
      }
    }
    forall n | 0 <= n < |labels| ensures labels[n] == [] || exists k :: 0 <= k < |more| && IsSuffix(labels[n], more[k]) {
      if n < |before| {
        assert labels[n] == before[n];
        if labels[n] != [] {
          var k :| 0 <= k < |appended| && IsSuffix(before[n], appended[k]);
          assert more[k] == appended[k];
        }
      } else {
        assert IsSuffix(labels[n], more[|appended|]);
      }
    }
  }

  lemma RecordedAt(table: bytes, labels: seq<bytes>, offsets: seq<Option<nat>>, n: nat)
    requires Recorded(table, labels, offsets) && n < |labels|
    ensures |offsets| == |labels|
    ensures offsets[n].Some? ==> FirstOccurrence(table, offsets[n].value, labels[n])
    ensures n > 0 ==> offsets[n].Some?
  {
  }

  lemma AllRecorded(table: bytes, labels: seq<bytes>, offsets: seq<Option<nat>>)
    requires Recorded(table, labels, offsets) && labels != [] && offsets[0].Some?
    ensures forall n :: 0 <= n < |offsets| ==> offsets[n].Some?
  {
  }

  lemma RecordedAppend(table: bytes, labels: seq<bytes>, offsets: seq<Option<nat>>, at: nat, s: bytes)
    requires Recorded(table, labels, offsets) && FirstOccurrence(table, at, s)
    ensures Recorded(table, labels + [s], offsets + [Some(at)])
  {
  }

  /** The first appended name supplies the first terminator behind the initial NUL. */
  lemma RootFirst(table: bytes, labels: seq<bytes>, offsets: seq<Option<nat>>, name: bytes)
    requires table != [] && table[|table| - 1] == 0 && NulFree(name)
    requires labels != [] && labels[0] == [] && (forall i, j :: 0 <= i < j < |labels| ==> labels[i] != labels[j])
    requires Recorded(table + (name + [0]), labels, offsets) && Covers(table, labels, offsets) && offsets[0].None?
    ensures Recorded(table + name + [0], labels, offsets[0 := Some(|table| + |name|)])
  {
    assert table + name + [0] == table + (name + [0]);
    NewFirst(table, labels, offsets, name, []);
  }

  ghost predicate SuffixesUpTo(labels: seq<bytes>, name: bytes, i: nat) {
    forall s: bytes :: IsSuffix(s, name) && |s| <= i ==> s in labels
  }

  lemma NextSuffix(labels: seq<bytes>, name: bytes, i: nat)
    requires SuffixesUpTo(labels, name, i) && i < |name| && name[|name| - (i + 1)..] in labels
    ensures SuffixesUpTo(labels, name, i + 1)
  {
  }

  lemma AllSuffixes(labels: seq<bytes>, name: bytes)
    requires SuffixesUpTo(labels, name, |name|)
    ensures forall s: bytes :: IsSuffix(s, name) ==> s in labels
  {
  }

  /** The first i suffixes of the name are in the trie and `node` spells the last of them. */
  ghost predicate Entering(edges: map<(nat, byte), nat>, labels: seq<bytes>, offsets: seq<Option<nat>>, before: seq<bytes>,
                           longer: bytes, name: bytes, node: nat, i: nat)
  {
    && i <= |name| && node < |labels| && labels[node] == name[|name| - i..]
    && Tree(edges, labels) && Recorded(longer, labels, offsets) && |offsets| == |labels| && offsets[0].Some?
    && |before| <= |labels| && labels[..|before|] == before
    && (forall n :: |before| <= n < |labels| ==> IsSuffix(labels[n], name))
    && SuffixesUpTo(labels, name, i)
  }

  lemma StartEntering(edges: map<(nat, byte), nat>, labels: seq<bytes>, offsets: seq<Option<nat>>, longer: bytes, name: bytes)
    requires Tree(edges, labels) && Recorded(longer, labels, offsets) && offsets[0].Some?
    ensures Entering(edges, labels, offsets, labels, longer, name, 0, 0)
  {
    assert name[|name| - 0..] == [];
    forall s: bytes | IsSuffix(s, name) && |s| <= 0 ensures s in labels {
      assert s == labels[0];
    }
  }

  lemma FollowEdge(edges: map<(nat, byte), nat>, labels: seq<bytes>, offsets: seq<Option<nat>>, before: seq<bytes>,
                   longer: bytes, name: bytes, node: nat, i: nat)
    requires i < |name| && Entering(edges, labels, offsets, before, longer, name, node, i)
    requires (node, name[|name| - 1 - i]) in edges
    ensures Entering(edges, labels, offsets, before, longer, name, edges[(node, name[|name| - 1 - i])], i + 1)
  {
    hide Recorded, SuffixesUpTo;
    var b := name[|name| - 1 - i];
    assert [b] + labels[node] == name[|name| - (i + 1)..];
    assert labels[edges[(node, b)]] == name[|name| - (i + 1)..];
    NextSuffix(labels, name, i);
  }

  lemma GrowEdge(edges: map<(nat, byte), nat>, labels: seq<bytes>, offsets: seq<Option<nat>>, before: seq<bytes>,
                 was: seq<Option<nat>>, table: bytes, name: bytes, node: nat, i: nat)
    requires i < |name| && Entering(edges, labels, offsets, before, table + name + [0], name, node, i)
    requires (node, name[|name| - 1 - i]) !in edges
    requires table != [] && table[|table| - 1] == 0 && NulFree(name) && Covers(table, before, was)
    ensures var s := name[|name| - (i + 1)..];
            Entering(edges[(node, name[|name| - 1 - i]) := |offsets|], labels + [s],
                     offsets + [Some(|table| + |name| - i - 1)], before, table + name + [0], name, |offsets|, i + 1)
  {
    hide Recorded, Covers, FirstOccurrence, SuffixesUpTo, Tree, NulFree, IsSuffix;
    var b := name[|name| - 1 - i];
    var s := name[|name| - (i + 1)..];
    assert [b] + labels[node] == s;
    MissingEdge(edges, labels, node, b);
    AddNode(edges, labels, node, b);
    NotBefore(labels, before, s);
    assert IsSuffix(s, name) by { TailSuffix(name, i + 1); }
    NewFirst(table, before, was, name, s);
    RecordedAppend(table + name + [0], labels, offsets, |table| + |name| - i - 1, s);
    GrowLabels(labels, before, name, i);
  }

  /** The labels after the next suffix of the name. */
  lemma GrowLabels(labels: seq<bytes>, before: seq<bytes>, name: bytes, i: nat)
    requires i < |name| && |before| <= |labels| && labels[..|before|] == before && SuffixesUpTo(labels, name, i)
    requires forall n :: |before| <= n < |labels| ==> IsSuffix(labels[n], name)
    ensures var more := labels + [name[|name| - (i + 1)..]];
            && more[..|before|] == before && SuffixesUpTo(more, name, i + 1)
            && forall n :: |before| <= n < |more| ==> IsSuffix(more[n], name)
  {
    hide SuffixesUpTo;
    var s := name[|name| - (i + 1)..];
    var more := labels + [s];
    assert IsSuffix(s, name);
    SuffixesKept(labels, more, name, i);
    assert more[|labels|] == s;
    NextSuffix(more, name, i);
    assert more[..|before|] == labels[..|before|];
  }

  lemma TailSuffix(name: bytes, n: nat)
    requires n <= |name|
    ensures IsSuffix(name[|name| - n..], name)
  {
  }

  lemma NotBefore(labels: seq<bytes>, before: seq<bytes>, s: bytes)
    requires |before| <= |labels| && labels[..|before|] == before && s !in labels
    ensures forall n :: 0 <= n < |before| ==> before[n] != s
  {
    forall n | 0 <= n < |before| ensures before[n] != s {
      assert before[n] == labels[n];
    }
  }

  lemma SuffixesKept(labels: seq<bytes>, more: seq<bytes>, name: bytes, i: nat)
    requires SuffixesUpTo(labels, name, i) && labels <= more
    ensures SuffixesUpTo(more, name, i)
  {
    forall s: bytes | IsSuffix(s, name) && |s| <= i ensures s in more {
      var n :| 0 <= n < |labels| && labels[n] == s;
      assert more[n] == s;
    }
  }

  lemma NotInTrie(labels: seq<bytes>, appended: seq<bytes>, name: bytes, s: bytes)
    requires HoldsSuffixes(labels, appended) && name != [] && IsSuffix(s, name) && s !in labels
    ensures name !in labels && forall k :: 0 <= k < |appended| ==> !IsSuffix(name, appended[k])
  {
    forall k | 0 <= k < |appended| ensures !IsSuffix(name, appended[k]) {
      if IsSuffix(name, appended[k]) {
        SuffixOfSuffix(s, name, appended[k]);
      }
    }
  }

  lemma FoundInTrie(edges: map<(nat, byte), nat>, labels: seq<bytes>, offsets: seq<Option<nat>>, appended: seq<bytes>, node: nat)
    requires Tree(edges, labels) && HoldsSuffixes(labels, appended) && node < |labels| == |offsets|
    requires node > 0 ==> offsets[node].Some?
    requires offsets[0].Some? <==> appended != []
    ensures offsets[node].Some? <==> exists k :: 0 <= k < |appended| && IsSuffix(labels[node], appended[k])
    ensures forall n :: 0 <= n < |labels| && labels[n] == labels[node] ==> n == node
  {
    if node > 0 {
      assert labels[node] != labels[0];
    } else if appended != [] {
      assert IsSuffix(labels[node], appended[0]);
    }
  }

  class SuffixIndex {
    var edges: map<(nat, byte), nat>
    var offsets: seq<Option<nat>>
    ghost var labels: seq<bytes>
    ghost var table: bytes
    ghost var appended: seq<bytes>

    ghost predicate Valid()
      reads this
    {
      && table != [] && table[|table| - 1] == 0
      && Tree(edges, labels)
      && Recorded(table, labels, offsets)
      && Covers(table, labels, offsets)
      && HoldsSuffixes(labels, appended)
      && (offsets[0].Some? <==> appended != [])
    }

    constructor ()
      ensures Valid() && table == [0] && appended == []
    {
      edges := map[];
      offsets := [None];
      labels := [[]];
      table := [0];
      appended := [];
    }

    /** Some offset exactly when the name ends an appended name, and then its first occurrence. */
    method Offset(name: bytes) returns (r: Option<nat>)
      requires Valid() && NulFree(name)
      ensures r.Some? <==> exists k :: 0 <= k < |appended| && IsSuffix(name, appended[k])
      ensures r.Some? ==> FirstOccurrence(table, r.value, name)
      ensures r.None? ==> forall n :: 0 <= n < |labels| && n < |offsets| && labels[n] == name ==> offsets[n].None?
    {
      hide Recorded, Covers, FirstOccurrence, HoldsSuffixes, IsSuffix;
      RecordedAt(table, labels, offsets, 0);
      var node: nat, i: nat := 0, 0;
      while i < |name|
        invariant 0 <= i <= |name| && node < |labels| && labels[node] == name[|name| - i..]
      {
        var b := name[|name| - 1 - i];
        assert [b] + labels[node] == name[|name| - (i + 1)..];
        if (node, b) !in edges {
          MissingEdge(edges, labels, node, b);
          DropIsSuffix(name, |name| - (i + 1));
          NotInTrie(labels, appended, name, name[|name| - (i + 1)..]);
          return None;
        }
        node := edges[(node, b)];
        i := i + 1;
      }
      assert name[0..] == name;
      RecordedAt(table, labels, offsets, node);
      FoundInTrie(edges, labels, offsets, appended, node);
      return offsets[node];
    }

    /** Enter every suffix of a name appended at the end of the table. */
    method RecordAppended(name: bytes, start: nat)
      requires Valid() && NulFree(name) && start == |table|
      modifies this
      ensures Valid() && table == old(table) + name + [0] && appended == old(appended) + [name]
    {
      hide Covers, FirstOccurrence, HoldsSuffixes, SuffixesUpTo, Recorded, Tree, IsSuffix;
      TreeShape(edges, labels);
      ghost var before, was, longer := labels, offsets, table + name + [0];
      var terminator := start + |name|;
      assert longer == table + (name + [0]);
      RecordedLonger(table, name + [0], labels, offsets);
      if offsets[0].None? {
        RootFirst(table, labels, offsets, name);
        offsets := offsets[0 := Some(terminator)];
      }
      StartEntering(edges, labels, offsets, longer, name);
      var node: nat, i: nat := 0, 0;
      while i < |name|
        invariant 0 <= i <= |name| && table == old(table) && appended == old(appended)
        invariant Entering(edges, labels, offsets, before, longer, name, node, i)
      {
        var key := (node, name[|name| - 1 - i]);
        if key in edges {
          FollowEdge(edges, labels, offsets, before, longer, name, node, i);
          node := edges[key];
        } else {
          GrowEdge(edges, labels, offsets, before, was, old(table), name, node, i);
          edges := edges[key := |offsets|];
          node := |offsets|;
          offsets := offsets + [Some(terminator - i - 1)];
          labels := labels + [name[|name| - (i + 1)..]];
        }
        i := i + 1;
      }
      assert forall n :: 0 <= n < |offsets| ==> offsets[n].Some? by { AllRecorded(longer, labels, offsets); }
      AllSuffixes(labels, name);
      CoversLonger(table, name, before, was, labels, offsets);
      SuffixesLonger(before, labels, appended, name);
      table := longer;
      appended := appended + [name];
    }
  }

  // ---- the order of the names ---------------------------------------------------------------

  function Reversed(s: bytes): (r: bytes)
    ensures |r| == |s| && forall i :: 0 <= i < |s| ==> r[i] == s[|s| - 1 - i]
  {
    seq(|s|, i requires 0 <= i < |s| => s[|s| - 1 - i])
  }

  predicate LexLe(a: bytes, b: bytes) {
    if a == [] then true
    else if b == [] then false
    else a[0] < b[0] || (a[0] == b[0] && LexLe(a[1..], b[1..]))
  }

  predicate ReverseDescending(a: bytes, b: bytes) {
    LexLe(Reversed(b), Reversed(a))
  }

  lemma {:induction false} LexTotal(a: bytes, b: bytes)
    ensures LexLe(a, b) || LexLe(b, a)
  {
    if a != [] && b != [] && a[0] == b[0] {
      LexTotal(a[1..], b[1..]);
    }
  }

  lemma {:induction false} LexTransitive(a: bytes, b: bytes, c: bytes)
    requires LexLe(a, b) && LexLe(b, c)
    ensures LexLe(a, c)
  {
    if a != [] && a[0] == b[0] == c[0] {
      LexTransitive(a[1..], b[1..], c[1..]);
    }
  }

  lemma {:induction false} LexAntisymmetric(a: bytes, b: bytes)
    requires LexLe(a, b) && LexLe(b, a)
    ensures a == b
  {
    if a != [] {
      LexAntisymmetric(a[1..], b[1..]);
      assert a == [a[0]] + a[1..] && b == [b[0]] + b[1..];
    }
  }

  lemma {:induction false} PrefixLe(a: bytes, b: bytes)
    requires a <= b
    ensures LexLe(a, b)
  {
    if a != [] {
      PrefixLe(a[1..], b[1..]);
    }
  }

  lemma OrdersTotal()
    ensures TotalPreorder(LexLe) && TotalPreorder(ReverseDescending)
  {
    forall a, b ensures LexLe(a, b) || LexLe(b, a) { LexTotal(a, b); }
    forall a, b, c | LexLe(a, b) && LexLe(b, c) ensures LexLe(a, c) { LexTransitive(a, b, c); }
  }

  lemma ReversedInjective(a: bytes, b: bytes)
    requires Reversed(a) == Reversed(b)
    ensures a == b
  {
    forall i | 0 <= i < |a| ensures a[i] == b[i] {
      assert Reversed(a)[|a| - 1 - i] == Reversed(b)[|a| - 1 - i];
    }
  }

  lemma SuffixSortsLater(s: bytes, t: bytes)
    requires IsSuffix(s, t)
    ensures ReverseDescending(t, s)
  {
    forall i | 0 <= i < |s| ensures Reversed(s)[i] == Reversed(t)[i] {
      assert t[|t| - |s|..][|s| - 1 - i] == t[|t| - 1 - i];
    }
    assert Reversed(s) <= Reversed(t);
    PrefixLe(Reversed(s), Reversed(t));
  }

  /** Drop each element equal to its predecessor. */
  function Dedup(s: seq<bytes>): (r: seq<bytes>)
  {
    if |s| <= 1 then s
    else
      var before := Dedup(s[..|s| - 1]);
      if s[|s| - 1] == s[|s| - 2] then before else before + [s[|s| - 1]]
  }

  lemma {:induction false} DedupSorted(s: seq<bytes>)
    requires SortedBy(s, LexLe)
    ensures forall x :: x in Dedup(s) <==> x in s
    ensures forall i, j :: 0 <= i < j < |Dedup(s)| ==> Dedup(s)[i] != Dedup(s)[j]
  {
    if |s| > 1 {
      var last := |s| - 1;
      DedupSorted(s[..last]);
      assert s == s[..last] + [s[last]];
      if s[last] != s[last - 1] {
        forall j | 0 <= j < last ensures s[j] != s[last] {
          if s[j] == s[last] {
            LexAntisymmetric(s[last - 1], s[last]);
          }
        }
        assert s[last] !in Dedup(s[..last]);
      } else {
        assert s[..last][last - 1] == s[last];
      }
    }
  }

  /** The distinct names in the order the table is built. */
  function NamesInOrder(symbols: seq<bytes>): seq<bytes> {
    StableSort(Dedup(StableSort(symbols, LexLe)), ReverseDescending)
  }

  ghost predicate SuffixesLast(order: seq<bytes>) {
    forall i, j :: 0 <= i < |order| && 0 <= j < |order| && i != j && IsSuffix(order[i], order[j]) ==> j < i
  }

  /** Every name once, and each name behind all names it is a suffix of. */
  lemma OrderOfNames(symbols: seq<bytes>)
    ensures forall x :: x in NamesInOrder(symbols) <==> x in symbols
    ensures SuffixesLast(NamesInOrder(symbols))
  {
    OrdersTotal();
    var sorted := StableSort(symbols, LexLe);
    SortSorted(symbols, LexLe);
    SortElements(symbols, LexLe);
    DedupSorted(sorted);
    var names := Dedup(sorted);
    var order := NamesInOrder(symbols);
    SortSorted(names, ReverseDescending);
    SortElements(names, ReverseDescending);
    forall x ensures x in order <==> x in symbols {
      assert x in order <==> x in multiset(order);
      assert x in sorted <==> x in multiset(sorted);
      assert x in symbols <==> x in multiset(symbols);
    }
    forall i, j | 0 <= i < |order| && 0 <= j < |order| && i != j && IsSuffix(order[i], order[j]) ensures j < i {
      if i < j {
        SuffixSortsLater(order[i], order[j]);
        LexAntisymmetric(Reversed(order[i]), Reversed(order[j]));
        ReversedInjective(order[i], order[j]);
        DistinctAfterSort(names, i, j);
      }
    }
  }

  lemma DistinctAfterSort(names: seq<bytes>, i: nat, j: nat)
    requires forall a, b :: 0 <= a < b < |names| ==> names[a] != names[b]
    requires i < j < |StableSort(names, ReverseDescending)|
    ensures StableSort(names, ReverseDescending)[i] != StableSort(names, ReverseDescending)[j]
  {
    var order := StableSort(names, ReverseDescending);
    SortElements(names, ReverseDescending);
    if order[i] == order[j] {
      CountTwice(order, i, j);
      DistinctCount(names, order[i]);
    }
  }

  lemma {:induction false} DistinctCount(names: seq<bytes>, x: bytes)
    requires forall a, b :: 0 <= a < b < |names| ==> names[a] != names[b]
    ensures multiset(names)[x] <= 1
  {
    if names != [] {
      var last := |names| - 1;
      assert names == names[..last] + [names[last]];
      DistinctCount(names[..last], x);
      if names[last] == x {
        assert x !in names[..last];
      }
    }
  }

  // ---- building the table -----------------------------------------------------------------------

  /** The names that are stored: those that end no earlier name. */
  function Stored(order: seq<bytes>): seq<bytes> {
    if order == [] then []
    else
      var last := |order| - 1;
      Stored(order[..last])
      + if exists j :: 0 <= j < last && IsSuffix(order[last], order[j]) then [] else [order[last]]
  }

  /** A NUL, then every string with its terminator. */
  function Packed(stored: seq<bytes>): bytes {
    if stored == [] then [0] else Packed(stored[..|stored| - 1]) + stored[|stored| - 1] + [0]
  }

  /** No stored name ends another symbol's name: nothing is stored twice. */
  lemma StoredNotShared(symbols: seq<bytes>, k: nat, t: bytes)
    requires k < |Stored(NamesInOrder(symbols))| && t in symbols && IsSuffix(Stored(NamesInOrder(symbols))[k], t)
    ensures Stored(NamesInOrder(symbols))[k] == t
  {
    var order := NamesInOrder(symbols);
    OrderOfNames(symbols);
    var i := StoredIndex(order, k);
    assert t in order;
    var j :| 0 <= j < |order| && order[j] == t;
  }

  lemma {:induction false} StoredIndex(order: seq<bytes>, k: nat) returns (i: nat)
    requires k < |Stored(order)|
    ensures i < |order| && order[i] == Stored(order)[k]
    ensures forall j :: 0 <= j < i ==> !IsSuffix(order[i], order[j])
  {
    var last := |order| - 1;
    if k < |Stored(order[..last])| {
      i := StoredIndex(order[..last], k);
      forall j | 0 <= j < i ensures !IsSuffix(order[i], order[j]) {
        assert order[..last][j] == order[j];
      }
    } else {
      i := last;
    }
  }

  /** A name ends an earlier name exactly when it ends an earlier stored name. */
  lemma {:induction false} EndsStored(order: seq<bytes>, s: bytes)
    ensures (exists j :: 0 <= j < |order| && IsSuffix(s, order[j])) <==>
            (exists k :: 0 <= k < |Stored(order)| && IsSuffix(s, Stored(order)[k]))
  {
    if order != [] {
      var last := |order| - 1;
      var before, stored := Stored(order[..last]), Stored(order);
      EndsStored(order[..last], s);
      EndsStored(order[..last], order[last]);
      if j :| 0 <= j < |order| && IsSuffix(s, order[j]) {
        if j < last {
          assert IsSuffix(s, order[..last][j]);
          var k :| 0 <= k < |before| && IsSuffix(s, before[k]);
          assert stored[k] == before[k];
        } else if exists q :: 0 <= q < last && IsSuffix(order[last], order[q]) {
          var q :| 0 <= q < last && IsSuffix(order[last], order[q]);
          assert IsSuffix(order[last], order[..last][q]);
          var k :| 0 <= k < |before| && IsSuffix(order[last], before[k]);
          SuffixOfSuffix(s, order[last], before[k]);
          assert stored[k] == before[k];
        } else {
          assert stored[|before|] == order[last];
        }
      }
      if k :| 0 <= k < |stored| && IsSuffix(s, stored[k]) {
        var i := StoredIndex(order, k);
      }
    }
  }

  datatype StringTable = StringTable(data: bytes, offsets: map<bytes, nat>)

  /** Every name so far has its first occurrence recorded. */
  ghost predicate Placed(table: bytes, offsets: map<bytes, nat>, names: seq<bytes>) {
    forall k :: 0 <= k < |names| ==> names[k] in offsets && FirstOccurrence(table, offsets[names[k]], names[k])
  }

  lemma PlacedLonger(table: bytes, more: bytes, offsets: map<bytes, nat>, names: seq<bytes>)
    requires Placed(table, offsets, names)
    ensures Placed(table + more, offsets, names)
  {
    forall k | 0 <= k < |names| ensures FirstOccurrence(table + more, offsets[names[k]], names[k]) {
      FirstKept(table, more, offsets[names[k]], names[k]);
    }
  }

  lemma PlacedNext(table: bytes, offsets: map<bytes, nat>, order: seq<bytes>, i: nat, at: nat)
    requires i < |order| && Placed(table, offsets, order[..i]) && FirstOccurrence(table, at, order[i])
    requires forall j :: 0 <= j < i ==> order[j] != order[i]
    ensures Placed(table, offsets[order[i] := at], order[..i + 1])
  {
    var names, offsets' := order[..i + 1], offsets[order[i] := at];
    forall k | 0 <= k < |names| ensures names[k] in offsets' && FirstOccurrence(table, offsets'[names[k]], names[k]) {
      if k < i { assert names[k] == order[..i][k]; }
    }
  }

  predicate Padded(table: bytes, data: bytes) {
    && |table| <= |data| < |table| + 8 && data[..|table|] == table
    && forall k :: |table| <= k < |data| ==> data[k] == 0
  }

  lemma StoredNext(order: seq<bytes>, i: nat)
    requires i < |order|
    ensures Stored(order[..i + 1]) == Stored(order[..i])
            + if exists k :: 0 <= k < |Stored(order[..i])| && IsSuffix(order[i], Stored(order[..i])[k]) then [] else [order[i]]
  {
    var upto := order[..i + 1];
    assert upto[..i] == order[..i] && upto[i] == order[i];
    EndsStored(order[..i], order[i]);
    if j :| 0 <= j < i && IsSuffix(upto[i], upto[j]) {
      assert IsSuffix(order[i], order[..i][j]);
    }
    if j :| 0 <= j < i && IsSuffix(order[i], order[..i][j]) {
      assert IsSuffix(upto[i], upto[j]);
    }
  }

  lemma PackedNext(stored: seq<bytes>, name: bytes)
    ensures Packed(stored + [name]) == Packed(stored) + name + [0]
  {
    assert (stored + [name])[..|stored|] == stored;
  }

  lemma {:induction false} PackedGrows(order: seq<bytes>, i: nat)
    requires i <= |order|
    ensures Packed(Stored(order[..i])) <= Packed(Stored(order))
    decreases |order| - i
  {
    if i == |order| {
      assert order[..i] == order;
    } else {
      StoredNext(order, i);
      PackedNext(Stored(order[..i]), order[i]);
      assert Stored(order[..i]) + [] == Stored(order[..i]);
      PackedGrows(order, i + 1);
    }
  }

  /** Find the name in the table or append it. */
  method PlaceName(suffixes: SuffixIndex, data: bytes, name: bytes) returns (offset: nat, longer: bytes)
    requires suffixes.Valid() && suffixes.table == data && NulFree(name)
    modifies suffixes
    ensures suffixes.Valid() && suffixes.table == longer && offset < |longer|
    ensures FirstOccurrence(longer, offset, name)
    ensures if exists k :: 0 <= k < |old(suffixes.appended)| && IsSuffix(name, old(suffixes.appended)[k])
            then longer == data && suffixes.appended == old(suffixes.appended)
            else longer == data + name + [0] && suffixes.appended == old(suffixes.appended) + [name]
  {
    hide FirstOccurrence, Covers, Recorded, Tree, HoldsSuffixes, IsSuffix;
    var found := suffixes.Offset(name);
    if found.Some? {
      offset, longer := found.value, data;
      FirstInside(data, offset, name);
    } else {
      offset := |data|;
      NewName(data, suffixes.labels, suffixes.offsets, name);
      longer := data + name + [0];
      suffixes.RecordAppended(name, offset);
    }
  }

  /** After the first i names. */
  ghost predicate Built(order: seq<bytes>, i: nat, data: bytes, appended: seq<bytes>, offsets: map<bytes, nat>) {
    && i <= |order| && appended == Stored(order[..i]) && data == Packed(appended) && Placed(data, offsets, order[..i])
  }

  lemma BuiltNext(symbols: seq<bytes>, i: nat, data: bytes, appended: seq<bytes>, offsets: map<bytes, nat>,
                  offset: nat, longer: bytes, more: seq<bytes>)
    requires i < |NamesInOrder(symbols)| && Built(NamesInOrder(symbols), i, data, appended, offsets)
    requires var name := NamesInOrder(symbols)[i];
             && FirstOccurrence(longer, offset, name)
             && if exists k :: 0 <= k < |appended| && IsSuffix(name, appended[k]) then longer == data && more == appended
                else longer == data + name + [0] && more == appended + [name]
    ensures Built(NamesInOrder(symbols), i + 1, longer, more, offsets[NamesInOrder(symbols)[i] := offset])
    ensures longer <= Packed(Stored(NamesInOrder(symbols)))
  {
    hide Placed, FirstOccurrence, IsSuffix, NamesInOrder, Stored, Packed;
    var order := NamesInOrder(symbols);
    var name := order[i];
    StoredNext(order, i);
    PackedGrows(order, i + 1);
    EarlierDiffer(symbols, i);
    if exists k :: 0 <= k < |appended| && IsSuffix(name, appended[k]) {
      assert appended + [] == appended;
    } else {
      PackedNext(appended, name);
      PlacedLonger(data, name + [0], offsets, order[..i]);
      assert data + (name + [0]) == longer;
    }
    PlacedNext(longer, offsets, order, i, offset);
  }

  /** The name first stands where no 32-bit offset leads. */
  ghost predicate FarName(table: bytes, name: bytes) {
    exists at: nat :: at > U32_MAX && FirstOccurrence(table, at, name)
  }

  lemma FoundFar(table: bytes, whole: bytes, at: nat, name: bytes)
    requires FirstOccurrence(table, at, name) && table <= whole
    ensures FirstOccurrence(whole, at, name) && at < |whole|
  {
    assert whole == table + whole[|table|..];
    FirstKept(table, whole[|table|..], at, name);
    FirstInside(table, at, name);
  }

  lemma FirstUnique(table: bytes, a: nat, b: nat, name: bytes)
    requires FirstOccurrence(table, a, name) && FirstOccurrence(table, b, name)
    ensures a == b
  {
    hide Occurs;
  }

  lemma NoneFar(table: bytes, offsets: map<bytes, nat>, order: seq<bytes>, names: seq<bytes>)
    requires Placed(table, offsets, order) && (forall x :: x in names ==> x in order) && forall n <- offsets :: offsets[n] <= U32_MAX
    ensures forall k :: 0 <= k < |names| ==> !FarName(table, names[k])
  {
    hide FirstOccurrence;
    PlacedFor(table, offsets, order, names);
    forall k | 0 <= k < |names| ensures !FarName(table, names[k]) {
      forall at: nat | FirstOccurrence(table, at, names[k]) ensures at <= U32_MAX {
        FirstUnique(table, at, offsets[names[k]], names[k]);
      }
    }
  }

  lemma TooFar(symbols: seq<bytes>, i: nat, longer: bytes, offset: nat)
    requires i < |NamesInOrder(symbols)| && longer <= Packed(Stored(NamesInOrder(symbols))) && offset > U32_MAX
    requires FirstOccurrence(longer, offset, NamesInOrder(symbols)[i])
    ensures exists k :: 0 <= k < |symbols| && FarName(Packed(Stored(NamesInOrder(symbols))), symbols[k])
    ensures |Packed(Stored(NamesInOrder(symbols)))| > U32_MAX
  {
    hide NamesInOrder, Stored, Packed, FirstOccurrence;
    OrderOfNames(symbols);
    var name := NamesInOrder(symbols)[i];
    assert name in symbols;
    var k :| 0 <= k < |symbols| && symbols[k] == name;
    FoundFar(longer, Packed(Stored(NamesInOrder(symbols))), offset, name);
    assert FarName(Packed(Stored(NamesInOrder(symbols))), symbols[k]);
  }

  lemma NoneTooFar(symbols: seq<bytes>, order: seq<bytes>, table: bytes, appended: seq<bytes>, offsets: map<bytes, nat>)
    requires Built(order, |order|, table, appended, offsets) && (forall n <- offsets :: offsets[n] <= U32_MAX)
    requires forall x :: x in symbols ==> x in order
    ensures forall k :: 0 <= k < |symbols| ==> !FarName(Packed(Stored(order)), symbols[k])
  {
    hide FarName, Placed;
    assert order[..|order|] == order;
    NoneFar(table, offsets, order, symbols);
  }

  lemma NoneBuilt(order: seq<bytes>)
    ensures Built(order, 0, [0], [], map[])
  {
  }

  method PadToEight(table: bytes) returns (data: bytes)
    ensures |data| % 8 == 0 && Padded(table, data)
  {
    data := table;
    ghost var target := (|table| + 7) / 8 * 8;
    while |data| % 8 != 0
      invariant |table| <= |data| <= target && data[..|table|] == table
      invariant forall k :: |table| <= k < |data| ==> data[k] == 0
      decreases target - |data|
    {
      data := data + [0];
    }
  }

  lemma BuiltAll(order: seq<bytes>, symbols: seq<bytes>, table: bytes, data: bytes, appended: seq<bytes>, offsets: map<bytes, nat>)
    requires Built(order, |order|, table, appended, offsets) && Padded(table, data)
    requires forall x :: x in symbols ==> x in order
    ensures Placed(data, offsets, symbols) && Padded(Packed(Stored(order)), data)
  {
    assert order[..|order|] == order;
    assert data == table + data[|table|..];
    PlacedLonger(table, data[|table|..], offsets, order);
    PlacedFor(data, offsets, order, symbols);
  }

  /**
    Every symbol's offset is the earliest place behind the first byte where its name stands with its
    terminator, and the table holds exactly the names that end no other name, padded to eight bytes. It
    fails exactly when some name has no place a 32-bit offset leads to.
   */
  method BuildStringTable(symbols: seq<bytes>) returns (r: Result<StringTable, ()>)
    requires forall k :: 0 <= k < |symbols| ==> NulFree(symbols[k])
    ensures r.Ok? ==>
              && Placed(r.value.data, r.value.offsets, symbols)
              && |r.value.data| % 8 == 0
              && Padded(Packed(Stored(NamesInOrder(symbols))), r.value.data)
    ensures r.Err? <==> exists k :: 0 <= k < |symbols| && FarName(Packed(Stored(NamesInOrder(symbols))), symbols[k])
    ensures r.Err? ==> |Packed(Stored(NamesInOrder(symbols)))| > U32_MAX
  {
    hide Placed, FirstOccurrence, Covers, Recorded, Tree, HoldsSuffixes, IsSuffix, NamesInOrder, SuffixesLast, Stored, Packed,
      Built, Padded, FarName;
    OrderOfNames(symbols);
    var order := NamesInOrder(symbols);
    var data: bytes := [0];
    var offsets: map<bytes, nat> := map[];
    var suffixes := new SuffixIndex();
    NoneBuilt(order);
    var i := 0;
    while i < |order|
      invariant 0 <= i <= |order| && fresh(suffixes)
      invariant suffixes.Valid() && suffixes.table == data
      invariant Built(order, i, data, suffixes.appended, offsets) && forall n <- offsets :: offsets[n] <= U32_MAX
    {
      assert order[i] in order;
      ghost var appended := suffixes.appended;
      var offset, longer := PlaceName(suffixes, data, order[i]);
      BuiltNext(symbols, i, data, appended, offsets, offset, longer, suffixes.appended);
      if offset > U32_MAX {
        TooFar(symbols, i, longer, offset);
        return Err(());
      }
      data, offsets := longer, offsets[order[i] := offset];
      i := i + 1;
    }
    var padded := PadToEight(data);
    NoneTooFar(symbols, order, data, suffixes.appended, offsets);
    BuiltAll(order, symbols, data, padded, suffixes.appended, offsets);
    return Ok(StringTable(padded, offsets));
  }

  lemma PlacedFor(table: bytes, offsets: map<bytes, nat>, order: seq<bytes>, names: seq<bytes>)
    requires Placed(table, offsets, order) && forall x :: x in names ==> x in order
    ensures Placed(table, offsets, names)
  {
    forall k | 0 <= k < |names| ensures names[k] in offsets && FirstOccurrence(table, offsets[names[k]], names[k]) {
      assert names[k] in order;
    }
  }

  lemma FirstInside(table: bytes, at: nat, s: bytes)
    requires FirstOccurrence(table, at, s)
    ensures at < |table|
  {
  }

  lemma NewName(table: bytes, labels: seq<bytes>, offsets: seq<Option<nat>>, name: bytes)
    requires table != [] && table[|table| - 1] == 0 && NulFree(name) && Covers(table, labels, offsets)
    requires forall n :: 0 <= n < |labels| && n < |offsets| && labels[n] == name ==> offsets[n].None?
    ensures FirstOccurrence(table + name + [0], |table|, name)
  {
    assert IsSuffix(name, name) by { assert name[0..] == name; }
    NewFirst(table, labels, offsets, name, name);
  }

  lemma EarlierDiffer(symbols: seq<bytes>, i: nat)
    requires i < |NamesInOrder(symbols)|
    ensures forall j :: 0 <= j < i ==> NamesInOrder(symbols)[j] != NamesInOrder(symbols)[i]
  {
    OrderOfNames(symbols);
    var order := NamesInOrder(symbols);
    DropIsSuffix(order[i], 0);
    assert order[i][0..] == order[i];
  }
}
