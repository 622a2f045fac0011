/** The Doxygen XML document as the converter sees it through `xml.dom.minidom`: nodes are
    numbered in document order, so the subtree of node `n` is the interval `n..end[n]`.
    The lists of children are kept apart from the nodes because the walk shortens them. */
module DoxygenTree {
  import opened Wrappers

  /** Element names the converter treats by name; every other name is `Other`. */
  datatype Tag =
    | Ref | Emphasis | Bold | ComputerOutput | Formula
    | CompoundName | CompoundDef | Includes | ParameterList | Para | ParameterName
    | ParameterDefinition | DetailedDescription | BriefDescription | MemberDef | Definition
    | SectionDef | Header | SimpleSect | ArgsString | Member | DoxygenIndex
    | Description | InnerNamespace
    | InheritanceGraph | Param | ListOfAllMembers | InnerClass | Name | DeclName | IncDepGraph
    | InvIncDepGraph | ProgramListing | Type | References | ReferencedBy | Location
    | CollaborationGraph | Reimplements | ReimplementedBy | DerivedCompoundRef | BaseCompoundRef
    | Other(name: string)

  datatype Node =
    | Document
    | Element(tag: Tag, attrs: map<string, string>)
    | Text(data: string)
    | Comment(data: string)

  type Lists = seq<seq<nat>>

  datatype Tree = Tree(nodes: seq<Node>, kids: Lists, parent: seq<nat>, end: seq<nat>)

  predicate HasTag(t: Tree, n: nat, tag: Tag) {
    n < |t.nodes| && t.nodes[n].Element? && t.nodes[n].tag == tag
  }

  function Size(t: Tree, n: nat): int
    requires n < |t.end|
  {
    t.end[n] - n
  }

  /** `ks` are children of `p` in document order, with disjoint subtrees. */
  ghost predicate Siblings(t: Tree, p: nat, ks: seq<nat>)
    requires |t.parent| == |t.end| == |t.nodes|
  {
    && p < |t.nodes|
    && (forall i :: 0 <= i < |ks| ==>
          p < ks[i] < |t.nodes| && t.parent[ks[i]] == p && ks[i] < t.end[ks[i]] <= t.end[p])
    && (forall i, j :: 0 <= i < j < |ks| ==> t.end[ks[i]] <= ks[j])
  }

  /** Subtrees are intervals and lists of children are siblings. Node 0 is its own parent. */
  ghost predicate WellFormed(t: Tree) {
    && 0 < |t.nodes| == |t.kids| == |t.parent| == |t.end|
    && (forall n :: 0 <= n < |t.nodes| ==> n < t.end[n] <= |t.nodes|)
    && (forall n :: 0 <= n < |t.nodes| ==> t.parent[n] < |t.nodes|)
    && t.nodes[0].Document? && t.parent[0] == 0
    && (forall n :: 0 <= n < |t.nodes| ==> Siblings(t, n, t.kids[n]))
  }

  // ---------- Lists of children that lost some <description> elements ----------

  /** `ks` is `ss` with some of its <description> elements taken out. */
  ghost predicate Pruned(t: Tree, ks: seq<nat>, ss: seq<nat>)
    decreases |ss|
  {
    if ss == [] then ks == []
    else
      || (ks != [] && ks[0] == ss[0] && Pruned(t, ks[1..], ss[1..]))
      || (HasTag(t, ss[0], Description) && Pruned(t, ks, ss[1..]))
  }

  ghost predicate AllPruned(t: Tree, live: Lists) {
    |live| == |t.kids| && forall m :: 0 <= m < |live| ==> Pruned(t, live[m], t.kids[m])
  }

  lemma {:induction false} PrunedRefl(t: Tree, ks: seq<nat>)
    ensures Pruned(t, ks, ks)
    decreases |ks|
  {
    if ks != [] {
      PrunedRefl(t, ks[1..]);
    }
  }

  lemma {:induction false} PrunedMembers(t: Tree, ks: seq<nat>, ss: seq<nat>, k: nat)
    requires Pruned(t, ks, ss) && k in ks
    ensures k in ss
    decreases |ss|
  {
    if ss != [] && !(ks[0] == ss[0] && k == ks[0]) {
      if ks[0] == ss[0] && Pruned(t, ks[1..], ss[1..]) {
        PrunedMembers(t, ks[1..], ss[1..], k);
      } else {
        PrunedMembers(t, ks, ss[1..], k);
      }
    }
  }

  lemma SiblingsTail(t: Tree, p: nat, ks: seq<nat>)
    requires WellFormed(t) && ks != [] && Siblings(t, p, ks)
    ensures Siblings(t, p, ks[1..])
  {
  }

  lemma {:induction false} PrunedSiblings(t: Tree, p: nat, ks: seq<nat>, ss: seq<nat>)
    requires WellFormed(t) && Siblings(t, p, ss) && Pruned(t, ks, ss)
    ensures Siblings(t, p, ks)
    decreases |ss|
  {
    if ss != [] {
      SiblingsTail(t, p, ss);
      if ks != [] && ks[0] == ss[0] && Pruned(t, ks[1..], ss[1..]) {
        PrunedSiblings(t, p, ks[1..], ss[1..]);
        forall j | 0 < j < |ks|
          ensures t.end[ks[0]] <= ks[j]
        {
          assert ks[j] == ks[1..][j - 1];
          PrunedMembers(t, ks[1..], ss[1..], ks[j]);
        }
      } else {
        PrunedSiblings(t, p, ks, ss[1..]);
      }
    }
  }

  /** Taking out one more <description> keeps the list pruned. */
  lemma {:induction false} PruneOne(t: Tree, ks: seq<nat>, ss: seq<nat>, i: nat)
    requires Pruned(t, ks, ss) && i < |ks| && HasTag(t, ks[i], Description)
    ensures Pruned(t, ks[..i] + ks[i + 1..], ss)
    decreases |ss|
  {
    var ks' := ks[..i] + ks[i + 1..];
    if ss != [] {
      if ks[0] == ss[0] && Pruned(t, ks[1..], ss[1..]) {
        if i == 0 {
          assert ks' == ks[1..];
        } else {
          PruneOne(t, ks[1..], ss[1..], i - 1);
          assert ks'[1..] == ks[1..][..i - 1] + ks[1..][i..];
        }
      } else {
        PruneOne(t, ks, ss[1..], i);
      }
    }
  }

  // ---------- getElementsByTagName ----------

  ghost predicate Ordered(t: Tree, live: Lists)
    requires |t.parent| == |t.end| == |t.nodes|
  {
    |live| == |t.nodes| && forall m :: 0 <= m < |live| ==> Siblings(t, m, live[m])
  }

  lemma PrunedOrdered(t: Tree, live: Lists)
    requires WellFormed(t) && AllPruned(t, live)
    ensures Ordered(t, live)
  {
    forall m | 0 <= m < |live|
      ensures Siblings(t, m, live[m])
    {
      PrunedSiblings(t, m, live[m], t.kids[m]);
    }
  }

  function Alone(t: Tree, n: nat, tag: Tag): seq<nat> {
    if HasTag(t, n, tag) then [n] else []
  }

  /** `getElementsByTagName(tag)` over the nodes `ks` and everything below them, in document
      order, on the current lists of children. */
  function Search(t: Tree, live: Lists, p: nat, ks: seq<nat>, tag: Tag): seq<nat>
    requires WellFormed(t) && Ordered(t, live) && Siblings(t, p, ks)
    decreases Size(t, p), |ks|
  {
    if ks == [] then []
    else
      SiblingsTail(t, p, ks);
      Alone(t, ks[0], tag) + Search(t, live, ks[0], live[ks[0]], tag) + Search(t, live, p, ks[1..], tag)
  }

  /** The same search on the document as it was read. */
  function Find(t: Tree, n: nat, tag: Tag): seq<nat>
    requires WellFormed(t) && n < |t.nodes|
  {
    Search(t, t.kids, n, t.kids[n], tag)
  }

  predicate Increasing(xs: seq<nat>) {
    forall i, j :: 0 <= i < j < |xs| ==> xs[i] < xs[j]
  }

  lemma IncreasingConcat(a: seq<nat>, b: seq<nat>, cut: nat)
    requires Increasing(a) && Increasing(b)
    requires (forall x :: x in a ==> x < cut) && (forall x :: x in b ==> cut <= x)
    ensures Increasing(a + b)
  {
    forall i, j | 0 <= i < j < |a + b|
      ensures (a + b)[i] < (a + b)[j]
    {
      if i < |a| <= j {
        assert a[i] in a && b[j - |a|] in b;
      }
    }
  }

  /** `x` carries the tag and its subtree lies in `lo..hi`. */
  predicate FoundIn(t: Tree, x: nat, tag: Tag, lo: nat, hi: nat)
    requires |t.end| == |t.nodes|
  {
    lo <= x && HasTag(t, x, tag) && t.end[x] <= hi
  }

  ghost predicate AllFoundIn(t: Tree, xs: seq<nat>, tag: Tag, lo: nat, hi: nat)
    requires |t.end| == |t.nodes|
  {
    Increasing(xs) && forall x :: x in xs ==> FoundIn(t, x, tag, lo, hi)
  }

  lemma CombineFound(t: Tree, k: nat, tag: Tag, below: seq<nat>, later: seq<nat>, lo: nat, hi: nat)
    requires |t.end| == |t.nodes| && lo <= k < |t.nodes| && k < t.end[k] <= hi
    requires forall x :: 0 <= x < |t.nodes| ==> x < t.end[x]
    requires AllFoundIn(t, below, tag, k + 1, t.end[k]) && AllFoundIn(t, later, tag, t.end[k], hi)
    ensures AllFoundIn(t, Alone(t, k, tag) + below + later, tag, lo, hi)
  {
    var here := Alone(t, k, tag);
    forall x | x in below
      ensures x < t.end[k]
    {
      assert FoundIn(t, x, tag, k + 1, t.end[k]);
    }
    IncreasingConcat(here, below, k + 1);
    IncreasingConcat(here + below, later, t.end[k]);
  }

  /** The search finds only descendants with the tag, in increasing order. */
  lemma {:induction false} SearchSound(t: Tree, live: Lists, p: nat, ks: seq<nat>, tag: Tag, lo: nat)
    requires WellFormed(t) && Ordered(t, live) && Siblings(t, p, ks)
    requires p < lo && forall k :: k in ks ==> lo <= k
    ensures AllFoundIn(t, Search(t, live, p, ks, tag), tag, lo, t.end[p])
    decreases Size(t, p), |ks|
  {
    if ks != [] {
      var k := ks[0];
      SiblingsTail(t, p, ks);
      assert k in ks;
      SearchSound(t, live, k, live[k], tag, k + 1);
      SearchSound(t, live, p, ks[1..], tag, t.end[k]);
      CombineFound(t, k, tag, Search(t, live, k, live[k], tag), Search(t, live, p, ks[1..], tag), lo, t.end[p]);
    }
  }

  /** `x` is one of `ks` or can be reached from one of them through lists of children. */
  ghost predicate Reaches(t: Tree, live: Lists, p: nat, ks: seq<nat>, x: nat)
    requires WellFormed(t) && Ordered(t, live) && Siblings(t, p, ks)
    decreases Size(t, p), |ks|
  {
    exists i :: 0 <= i < |ks| && (ks[i] == x || Reaches(t, live, ks[i], live[ks[i]], x))
  }

  lemma ReachesCons(t: Tree, live: Lists, p: nat, ks: seq<nat>, x: nat)
    requires WellFormed(t) && Ordered(t, live) && ks != [] && Siblings(t, p, ks)
    ensures Siblings(t, p, ks[1..])
    ensures Reaches(t, live, p, ks, x) <==>
              ks[0] == x || Reaches(t, live, ks[0], live[ks[0]], x) || Reaches(t, live, p, ks[1..], x)
  {
    SiblingsTail(t, p, ks);
    if Reaches(t, live, p, ks, x) {
      var i :| 0 <= i < |ks| && (ks[i] == x || Reaches(t, live, ks[i], live[ks[i]], x));
      assert i > 0 ==> ks[1..][i - 1] == ks[i];
    }
    if Reaches(t, live, p, ks[1..], x) {
      var i :| 0 <= i < |ks[1..]| && (ks[1..][i] == x || Reaches(t, live, ks[1..][i], live[ks[1..][i]], x));
      assert ks[i + 1] == ks[1..][i];
    }
  }

  /** The search finds a node if and only if it carries the tag and can be reached. */
  lemma {:induction false} SearchFindsAll(t: Tree, live: Lists, p: nat, ks: seq<nat>, tag: Tag, x: nat)
    requires WellFormed(t) && Ordered(t, live) && Siblings(t, p, ks)
    ensures x in Search(t, live, p, ks, tag) <==> HasTag(t, x, tag) && Reaches(t, live, p, ks, x)
    decreases Size(t, p), |ks|
  {
    if ks != [] {
      ReachesCons(t, live, p, ks, x);
      SearchFindsAll(t, live, ks[0], live[ks[0]], tag, x);
      SearchFindsAll(t, live, p, ks[1..], tag, x);
    }
  }

  /** No <description> holds an element with this tag. */
  ghost predicate NotInDescriptions(t: Tree, tag: Tag)
    requires |t.end| == |t.nodes|
  {
    forall d, m :: 0 <= d <= m < |t.nodes| && HasTag(t, d, Description) && m < t.end[d] ==> !HasTag(t, m, tag)
  }

  /** A subtree the search finds something in holds the tag. */
  lemma SearchWitness(t: Tree, d: nat, tag: Tag)
    requires WellFormed(t) && d < |t.nodes|
    ensures Find(t, d, tag) != [] ==> exists m :: d <= m < t.end[d] && HasTag(t, m, tag)
  {
    SearchSound(t, t.kids, d, t.kids[d], tag, d + 1);
    var found := Find(t, d, tag);
    if found != [] {
      assert found[0] in found;
      assert FoundIn(t, found[0], tag, d + 1, t.end[d]);
    }
  }

  lemma SearchSkips(t: Tree, p: nat, ss: seq<nat>, tag: Tag)
    requires WellFormed(t) && ss != [] && Siblings(t, p, ss)
    requires HasTag(t, ss[0], Description) && NotInDescriptions(t, tag)
    ensures Siblings(t, p, ss[1..])
    ensures Search(t, t.kids, p, ss, tag) == Search(t, t.kids, p, ss[1..], tag)
  {
    SiblingsTail(t, p, ss);
    SearchWitness(t, ss[0], tag);
    assert Alone(t, ss[0], tag) == [];
    assert Find(t, ss[0], tag) == [];
  }

  /** Removing <description> elements that hold no `tag` leaves the search unchanged. */
  lemma {:induction false} SearchPruned(t: Tree, live: Lists, p: nat, ks: seq<nat>, ss: seq<nat>, tag: Tag)
    requires WellFormed(t) && Ordered(t, live) && AllPruned(t, live)
    requires Siblings(t, p, ks) && Siblings(t, p, ss) && Pruned(t, ks, ss)
    requires NotInDescriptions(t, tag)
    ensures Search(t, live, p, ks, tag) == Search(t, t.kids, p, ss, tag)
    decreases Size(t, p), |ss|
  {
    if ss != [] {
      var s := ss[0];
      SiblingsTail(t, p, ss);
      if ks != [] && ks[0] == s && Pruned(t, ks[1..], ss[1..]) {
        SiblingsTail(t, p, ks);
        SearchPruned(t, live, s, live[s], t.kids[s], tag);
        SearchPruned(t, live, p, ks[1..], ss[1..], tag);
      } else {
        SearchSkips(t, p, ss, tag);
        SearchPruned(t, live, p, ks, ss[1..], tag);
      }
    }
  }

  // ---------- firstChild.data ----------

  function Data(t: Tree, n: nat): Option<string> {
    if n < |t.nodes| && (t.nodes[n].Text? || t.nodes[n].Comment?) then Some(t.nodes[n].data) else None
  }

  /** `node.firstChild.data`; `None` where Python raises AttributeError. */
  function FirstData(t: Tree, ks: seq<nat>): Option<string> {
    if ks == [] then None else Data(t, ks[0])
  }

  lemma FirstDataPruned(t: Tree, ks: seq<nat>, ss: seq<nat>)
    requires Pruned(t, ks, ss) && FirstData(t, ss).Some?
    ensures FirstData(t, ks) == FirstData(t, ss)
  {
  }
}
