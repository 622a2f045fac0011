/** The order in which children are visited is a permutation of the list of children, whatever
    a header removes while the list is being iterated over. */
module VisitOrder {
  import opened DoxygenTree
  import opened DoxygenEmitter

  /** The nodes visited, with multiplicity. */
  function Visited(vs: seq<Visit>): multiset<nat> {
    if vs == [] then multiset{} else multiset{vs[0].id} + Visited(vs[1..])
  }

  function One(k: nat, skip: set<nat>): multiset<nat> {
    if k in skip then multiset{} else multiset{k}
  }

  /** The children that are not left out, with multiplicity. */
  function Kept(ks: seq<nat>, skip: set<nat>): multiset<nat> {
    if ks == [] then multiset{} else One(ks[0], skip) + Kept(ks[1..], skip)
  }

  lemma KeptCons(k: nat, ks: seq<nat>, skip: set<nat>)
    ensures Kept([k] + ks, skip) == One(k, skip) + Kept(ks, skip)
  {
    assert ([k] + ks)[1..] == ks;
  }

  lemma VisitedCons(v: Visit, vs: seq<Visit>)
    ensures Visited([v] + vs) == multiset{v.id} + Visited(vs)
  {
    assert ([v] + vs)[1..] == vs;
  }

  lemma KeptAroundAside(ks: seq<nat>, skip: set<nat>)
    requires |ks| >= 3
    ensures Kept(ks, skip) == One(ks[0], skip) + One(ks[2], skip) + Kept(WithoutAside(ks), skip)
  {
    hide Kept;
    var x, d, later := ks[1], ks[2], ks[3..];
    assert ks == [ks[0]] + ([x] + ([d] + later));
    KeptCons(ks[0], [x] + ([d] + later), skip);
    KeptCons(x, [d] + later, skip);
    KeptCons(d, later, skip);
    KeptCons(x, later, skip);
  }

  lemma VisitedTwo(k: nat, d: nat, vs: seq<Visit>)
    ensures Visited([Direct(k), Aside(d)] + vs) == multiset{k} + multiset{d} + Visited(vs)
  {
    hide Visited;
    assert [Direct(k), Aside(d)] + vs == [Direct(k)] + ([Aside(d)] + vs);
    VisitedCons(Direct(k), [Aside(d)] + vs);
    VisitedCons(Aside(d), vs);
  }

  /** Removal during iteration is safe: every child the loop does not leave out is visited
      exactly once, the removed descriptions included. */
  lemma {:induction false} EachVisitedOnce(t: Tree, ks: seq<nat>, skip: set<nat>)
    requires forall k :: k in skip ==> !HasTag(t, k, Description)
    ensures Visited(Order(t, ks, skip)) == Kept(ks, skip)
    decreases |ks|
  {
    hide Visited, Kept;
    if ks == [] {
      NoneVisited();
      NoneKept(skip);
    } else {
      var k, rest := ks[0], ks[1..];
      if k !in skip && TakesAside(t, ks) {
        EachVisitedOnce(t, WithoutAside(ks), skip);
        KeptAroundAside(ks, skip);
        VisitedTwo(k, ks[2], Order(t, WithoutAside(ks), skip));
      } else {
        EachVisitedOnce(t, rest, skip);
        assert ks == [k] + rest;
        KeptCons(k, rest, skip);
        VisitedCons(Direct(k), Order(t, rest, skip));
      }
    }
  }

  lemma NoneVisited()
    ensures Visited([]) == multiset{}
  {
  }

  lemma NoneKept(skip: set<nat>)
    ensures Kept([], skip) == multiset{}
  {
  }

  /** A description is taken aside only by the header visited right before it. */
  lemma {:induction false} AsidesFollowHeaders(t: Tree, ks: seq<nat>, skip: set<nat>, i: nat)
    requires i < |Order(t, ks, skip)| && Order(t, ks, skip)[i].Aside?
    ensures i > 0 && Order(t, ks, skip)[i - 1].Direct? && HasTag(t, Order(t, ks, skip)[i - 1].id, Header)
    ensures HasTag(t, Order(t, ks, skip)[i].id, Description)
    decreases |ks|
  {
    if ks[0] in skip {
      AsidesFollowHeaders(t, ks[1..], skip, i);
    } else if TakesAside(t, ks) {
      if i > 1 {
        AsidesFollowHeaders(t, WithoutAside(ks), skip, i - 2);
      }
    } else {
      AsidesFollowHeaders(t, ks[1..], skip, i - 1);
    }
  }

  // ---------- A public class ----------

  /** The last child element with the tag `g`, if any. */
  ghost predicate LastWithTag(t: Tree, ks: seq<nat>, g: Tag, i: nat) {
    i < |ks| && HasTag(t, ks[i], g) && forall j :: i < j < |ks| ==> !HasTag(t, ks[j], g)
  }

  lemma DictionaryStep(t: Tree, ks: seq<nat>, names: set<Tag>, g: Tag)
    requires g in names && ks != []
    ensures var n, d, init := |ks| - 1, SpecificNodes(t, ks, names), SpecificNodes(t, ks[..|ks| - 1], names);
            if HasTag(t, ks[n], g) then g in d && d[g] == ks[n]
            else (g in d <==> g in init) && (g in d ==> d[g] == init[g])
  {
  }

  lemma EmptyDictionary(t: Tree, names: set<Tag>)
    ensures SpecificNodes(t, [], names) == map[]
  {
  }

  /** The dictionary keeps, for each name, the last of the children that carry it, and has no
      entry for a name that no child carries. */
  lemma {:induction false} DictionaryKeepsLast(t: Tree, ks: seq<nat>, names: set<Tag>, g: Tag)
    requires g in names
    ensures g in SpecificNodes(t, ks, names) <==> exists i :: 0 <= i < |ks| && HasTag(t, ks[i], g)
    ensures g in SpecificNodes(t, ks, names) ==>
              exists i: nat :: LastWithTag(t, ks, g, i) && ks[i] == SpecificNodes(t, ks, names)[g]
    decreases |ks|
  {
    hide SpecificNodes, HasTag;
    if ks != [] {
      var n := |ks| - 1;
      var init := ks[..n];
      DictionaryKeepsLast(t, init, names, g);
      DictionaryStep(t, ks, names, g);
      if HasTag(t, ks[n], g) {
        assert LastWithTag(t, ks, g, n);
      } else if g in SpecificNodes(t, init, names) {
        var i: nat :| LastWithTag(t, init, g, i) && init[i] == SpecificNodes(t, init, names)[g];
        assert HasTag(t, ks[i], g);
        assert LastWithTag(t, ks, g, i);
      }
    } else {
      EmptyDictionary(t, names);
    }
  }

  lemma {:induction false} KeptAll(ks: seq<nat>)
    ensures Kept(ks, {}) == multiset(ks)
    decreases |ks|
  {
    if ks != [] {
      KeptAll(ks[1..]);
      assert ks == [ks[0]] + ks[1..];
    }
  }

  /** Leaving out one more child. */
  lemma {:induction false} KeptWithout(ks: seq<nat>, skip: set<nat>, x: nat)
    requires x in ks && x !in skip && forall i, j :: 0 <= i < j < |ks| ==> ks[i] != ks[j]
    ensures Kept(ks, skip) == Kept(ks, skip + {x}) + multiset{x}
    decreases |ks|
  {
    var k, rest := ks[0], ks[1..];
    if k == x {
      KeptAbsent(rest, skip, x);
    } else {
      KeptWithout(rest, skip, x);
    }
  }

  lemma {:induction false} KeptAbsent(ks: seq<nat>, skip: set<nat>, x: nat)
    requires x !in ks
    ensures Kept(ks, skip + {x}) == Kept(ks, skip)
    decreases |ks|
  {
    if ks != [] {
      KeptAbsent(ks[1..], skip, x);
    }
  }

  /** The nodes the dictionary holds for `names`. */
  function NamedSet(first: map<Tag, nat>, names: seq<Tag>): set<nat> {
    if names == [] then {} else (if names[0] in first then {first[names[0]]} else {}) + NamedSet(first, names[1..])
  }

  lemma {:induction false} NamedMembers(first: map<Tag, nat>, names: seq<Tag>, x: nat)
    ensures x in NamedSet(first, names) <==> exists g :: g in names && g in first && first[g] == x
    decreases |names|
  {
    if names != [] {
      NamedMembers(first, names[1..], x);
      assert names == [names[0]] + names[1..];
    }
  }

  ghost predicate Distinct(ks: seq<nat>) {
    forall i, j :: 0 <= i < j < |ks| ==> ks[i] != ks[j]
  }

  /** Different names stand for different nodes. */
  lemma NamedApart(t: Tree, first: map<Tag, nat>, names: seq<Tag>)
    requires names != [] && names[0] in first && names[0] !in names[1..]
    requires forall g :: g in first ==> HasTag(t, first[g], g)
    ensures first[names[0]] !in NamedSet(first, names[1..])
  {
    NamedMembers(first, names[1..], first[names[0]]);
    forall h | h in names[1..] && h in first
      ensures first[h] != first[names[0]]
    {
      assert HasTag(t, first[h], h) && HasTag(t, first[names[0]], names[0]);
    }
  }

  lemma {:induction false} NamedThenRest(t: Tree, ks: seq<nat>, first: map<Tag, nat>, names: seq<Tag>)
    requires Distinct(ks)
    requires forall i, j :: 0 <= i < j < |names| ==> names[i] != names[j]
    requires forall g :: g in first ==> first[g] in ks && HasTag(t, first[g], g)
    ensures Visited(Named(first, names)) + Kept(ks, NamedSet(first, names)) == multiset(ks)
    decreases |names|
  {
    hide Visited, Kept;
    if names == [] {
      KeptAll(ks);
      NoneVisited();
    } else {
      var g, rest := names[0], names[1..];
      NamedThenRest(t, ks, first, rest);
      if g in first {
        var x := first[g];
        NamedApart(t, first, names);
        KeptWithout(ks, NamedSet(first, rest), x);
        assert NamedSet(first, names) == NamedSet(first, rest) + {x};
        VisitedCons(Direct(x), Named(first, rest));
      } else {
        assert NamedSet(first, names) == NamedSet(first, rest);
        assert Named(first, names) == Named(first, rest);
      }
    }
  }

  /** Visiting is a permutation: for a public class the two loops together visit every child
      exactly once, named children first, even when a name is carried by several children. */
  lemma ClassVisitsOnce(t: Tree, n: nat)
    requires WellFormed(t) && n < |t.nodes|
    ensures Visited(Named(ClassFirst(t, n), CLASS_NAMES)) + Visited(Order(t, t.kids[n], ClassFirst(t, n).Values))
         == multiset(t.kids[n])
  {
    hide Visited, Kept, SpecificNodes;
    var ks, first := t.kids[n], ClassFirst(t, n);
    assert Siblings(t, n, ks);
    ClassFacts(t, n);
    EachVisitedOnce(t, ks, first.Values);
    NamedThenRest(t, ks, first, CLASS_NAMES);
    NamedSetIsValues(t, n);
  }

  lemma NamedSetIsValues(t: Tree, n: nat)
    requires WellFormed(t) && n < |t.nodes|
    ensures NamedSet(ClassFirst(t, n), CLASS_NAMES) == ClassFirst(t, n).Values
  {
    hide NamedSet, SpecificNodes;
    var first := ClassFirst(t, n);
    SpecificInList(t, t.kids[n], CLASS_NAME_SET);
    assert forall g :: g in CLASS_NAME_SET ==> g in CLASS_NAMES;
    forall x
      ensures x in NamedSet(first, CLASS_NAMES) <==> x in first.Values
    {
      NamedMembers(first, CLASS_NAMES, x);
    }
  }
}
