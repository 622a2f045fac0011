/** The walk of src/doxy2swig.py itself: handlers that append to one list of pieces and, in
    `DoHeader`, take a node out of a list of children that a caller is iterating over. */
module Doxy2Swig {
  import opened Wrappers
  import opened SwigLexer
  import opened Escape
  import opened DoxygenTree
  import opened DoxygenEmitter

  function IndexOf(ks: seq<nat>, n: nat): (i: nat)
    requires n in ks
    ensures i < |ks| && ks[i] == n
  {
    if ks[0] == n then 0 else 1 + IndexOf(ks[1..], n)
  }

  /** Where a loop over the children of `parent` stands, and the nodes it leaves out. */
  datatype Spot = Spot(parent: nat, i: nat, skip: set<nat>)

  /** The subtrees of two children do not meet. */
  lemma SiblingsApart(t: Tree, p: nat, k: nat, other: nat)
    requires WellFormed(t) && p < |t.nodes| && k in t.kids[p] && other in t.kids[p] && k != other
    ensures k < |t.nodes| && other < |t.nodes| && (t.end[k] <= other || t.end[other] <= k)
  {
    assert Siblings(t, p, t.kids[p]);
  }

  class Converter {
    const t: Tree
    const cfg: Config
    var pieces: seq<string>
    /** `childNodes[n]` is the current list of children of node `n`. */
    var childNodes: Lists

    ghost predicate Ready()
      reads this
    {
      WellFormed(t) && Renderable(t, cfg) && AllPruned(t, childNodes)
    }

    /** Nothing at or below `n` has been removed yet. */
    ghost predicate Intact(n: nat)
      requires WellFormed(t) && |childNodes| == |t.nodes|
      reads this
    {
      n < |t.nodes| && forall m :: n <= m < t.end[n] ==> childNodes[m] == t.kids[m]
    }

    /** `out` was appended, and no list of children outside the subtree of `n` changed. */
    twostate predicate Wrote(n: nat, out: seq<string>)
      requires WellFormed(t)
      reads this
    {
      && Ready()
      && pieces == old(pieces) + out
      && n < |t.nodes| && |childNodes| == |old(childNodes)|
      && forall m :: 0 <= m < |childNodes| && !(n <= m < t.end[n]) ==> childNodes[m] == old(childNodes[m])
    }

    /** `n`, at position `at` in its parent's list, is a header that takes out a description. */
    ghost predicate Detaches(n: nat, at: nat)
      requires WellFormed(t) && n < |t.nodes| && |childNodes| == |t.nodes|
      reads this
    {
      && HasTag(t, n, Header)
      && at <= |childNodes[t.parent[n]]|
      && TakesAside(t, childNodes[t.parent[n]][at..])
    }

    /** What `DoHeader` needs of the list its caller is iterating over. */
    ghost predicate HeaderReady(n: nat, at: nat)
      requires WellFormed(t) && n < |t.nodes| && |childNodes| == |t.nodes|
      reads this
    {
      var ks := childNodes[t.parent[n]];
      HasTag(t, n, Header) ==>
        && n != 0 && at < |ks| && ks[at] == n && |ks| - at != 2
        && (Detaches(n, at) ==> Intact(ks[at + 2]))
    }

    /** The effect of parsing `n`: its pieces and, for a header that detaches the description
        after it, those of the description too, which is then gone from the parent's list. */
    twostate predicate Parsed(n: nat, at: nat)
      requires WellFormed(t) && n < |t.nodes| && |old(childNodes)| == |t.nodes| && Renderable(t, cfg)
      reads this
    {
      if old(Detaches(n, at)) then
        var p := t.parent[n];
        var ks := old(childNodes[p]);
        var d := ks[at + 2];
        && Ready()
        && p < d < |t.nodes| && t.end[d] <= t.end[p]
        && pieces == old(pieces) + Emit(t, cfg, n) + EmitVisit(t, cfg, p, Aside(d))
        && |childNodes| == |old(childNodes)|
        && childNodes[p] == ks[..at + 2] + ks[at + 3..]
        && forall m :: 0 <= m < |childNodes| && m != p && !(d <= m < t.end[d]) ==> childNodes[m] == old(childNodes[m])
      else Wrote(n, Emit(t, cfg, n))
    }

    constructor (t: Tree, cfg: Config, basename: string)
      requires Renderable(t, cfg)
      ensures this.t == t && this.cfg == cfg
      ensures Ready() && childNodes == t.kids
      ensures pieces == [FileLine(basename)]
    {
      this.t, this.cfg := t, cfg;
      pieces := [FileLine(basename)];
      childNodes := t.kids;
      new;
      forall m | 0 <= m < |t.kids|
        ensures Pruned(t, t.kids[m], t.kids[m])
      {
        PrunedRefl(t, t.kids[m]);
      }
    }

    /** `self.parse(self.xmldoc)`: the pieces are those of the pure emitter. */
    method Generate()
      requires Ready() && childNodes == t.kids
      modifies this
      ensures DocumentElement(t, 0).Some?
      ensures pieces == old(pieces) + Emit(t, cfg, 0)
    {
      assert Renders(t, cfg, 0);
      Parse(0, 0, Size(t, 0) + 1);
    }

    method AddText(value: string)
      modifies this`pieces
      ensures pieces == old(pieces) + [value]
    {
      pieces := pieces + [value];
    }

    method AddTexts(values: seq<string>)
      modifies this`pieces
      ensures pieces == old(pieces) + values
    {
      pieces := pieces + values;
    }

    method ParseText(data: string)
      modifies this`pieces
      ensures pieces == old(pieces) + EmitText(cfg, data)
    {
      var txt := Replace(data, BACKSLASH, FOUR_BACKSLASHES);
      txt := Replace(txt, QUOTE, ESCAPED_QUOTE);
      if !Blank(txt) {
        AddText(cfg.fill(txt));
      }
    }

    /** `at` is the position of a header in its parent's list; `bound` limits the recursion. */
    method Parse(n: nat, ghost at: nat, ghost bound: nat)
      requires Ready() && n < |t.nodes| && Intact(n) && HeaderReady(n, at)
      requires Size(t, n) < bound && (HasTag(t, n, Header) ==> Size(t, t.parent[n]) <= bound)
      modifies this
      ensures Parsed(n, at)
      decreases bound, 3
    {
      assert Renders(t, cfg, n);
      match t.nodes[n]
      case Document => ParseDocument(n);
      case Element(tag, _) => ParseElement(n, tag, at, bound);
      case Text(data) => ParseText(data);
      case Comment(_) =>
    }

    method ParseDocument(n: nat)
      requires Ready() && n < |t.nodes| && t.nodes[n].Document? && Intact(n)
      modifies this
      ensures Wrote(n, Emit(t, cfg, n))
      decreases Size(t, n), 7
    {
      assert Renders(t, cfg, n);
      KidsBelow(t, n);
      var root := FirstElement(t, childNodes[n]).value;
      Parse(root, 0, Size(t, n));
      var vs := [Direct(root)];
      assert vs[1..] == [];
      assert EmitVisits(t, cfg, n, vs) == EmitVisit(t, cfg, n, vs[0]) + EmitVisits(t, cfg, n, vs[1..]);
    }

    method ParseElement(n: nat, tag: Tag, ghost at: nat, ghost bound: nat)
      requires Ready() && HasTag(t, n, tag) && Intact(n) && HeaderReady(n, at)
      requires Size(t, n) < bound && (HasTag(t, n, Header) ==> Size(t, t.parent[n]) <= bound)
      modifies this
      ensures Parsed(n, at)
      decreases bound, 2
    {
      hide Renderable, Renders, Emit, EmitKids, EmitVisits, EmitVisit, EmitCompound, EmitMember, WellFormed, AllPruned;
      if Ignored(cfg, tag) {
        EmitNothing(t, cfg, n, tag);
        return;
      }
      EmitIs(t, cfg, n, tag);
      if tag == Ref || tag == Emphasis || tag == Bold || tag == ComputerOutput || tag == Formula {
        SpaceParse(n);
      } else if tag == CompoundName {
        DoCompoundName(n);
      } else if tag == CompoundDef {
        DoCompoundDef(n);
      } else if tag == Includes {
        DoIncludes(n);
      } else if tag == ParameterList {
        DoParameterList(n);
      } else if tag == Para {
        DoPara(n);
      } else if tag == ParameterName {
        DoParameterName(n);
      } else if tag == ParameterDefinition || tag == DetailedDescription || tag == BriefDescription || tag == ArgsString {
        GenericParse(n, 1);
      } else if tag == MemberDef {
        DoMemberDef(n);
      } else if tag == Definition {
        DoDefinition(n);
      } else if tag == SectionDef {
        DoSectionDef(n);
      } else if tag == Header {
        DoHeader(n, at, bound);
      } else if tag == SimpleSect {
        DoSimpleSect(n);
      } else if tag == Member {
        DoMember(n);
      } else {
        GenericParse(n);
      }
    }

    method GenericParse(n: nat, pad: nat := 0)
      requires Ready() && n < |t.nodes| && Intact(n)
      modifies this
      ensures Wrote(n, Pad(pad, EmitKids(t, cfg, n)))
      decreases Size(t, n), 6
    {
      hide Renderable, Renders, Emit, EmitVisit, EmitVisits, Order;
      var npiece := 0;
      if pad != 0 {
        npiece := |pieces|;
        if pad == 2 {
          AddText("\n");
        }
      }
      KidsBelow(t, n);
      OrderBelow(t, n, t.kids[n], {});
      ParseChildren(n, {});
      if pad != 0 {
        if |pieces| > npiece {
          AddText("\n");
        }
      }
    }

    ghost predicate RestIntact(rest: seq<nat>, skip: set<nat>)
      requires WellFormed(t) && |childNodes| == |t.nodes|
      reads this
    {
      forall k :: k in rest && k !in skip ==> Intact(k)
    }

    /** The loop over the children of `p` can go on from position `i`. */
    ghost predicate LoopReady(p: nat, i: nat, skip: set<nat>)
      reads this
    {
      && Ready() && p < |t.nodes| && i <= |childNodes[p]|
      && (forall k :: k in skip ==> !HasTag(t, k, Header) && !HasTag(t, k, Description))
      && RestIntact(childNodes[p][i..], skip)
      && HeadersFit(t, childNodes[p][i..])
      && Below(t, p, Order(t, childNodes[p][i..], skip))
    }

    /** One turn of the loop at position `i`: the loop can go on from `i + 1`, and what was
        written plus what is left is what was left before. */
    twostate predicate Turned(p: nat, i: nat, skip: set<nat>)
      requires WellFormed(t) && old(LoopReady(p, i, skip)) && i < |old(childNodes[p])|
      reads this
    {
      && LoopReady(p, i + 1, skip)
      && |childNodes| == |old(childNodes)| && |childNodes[p]| <= |old(childNodes[p])|
      && pieces + EmitVisits(t, cfg, p, Order(t, childNodes[p][i + 1..], skip))
         == old(pieces) + EmitVisits(t, cfg, p, Order(t, old(childNodes[p])[i..], skip))
      && forall m :: 0 <= m < |childNodes| && !(p <= m < t.end[p]) ==> childNodes[m] == old(childNodes[m])
    }

    /** After a header took the description out, the rest of the list is as intact as it was. */
    twostate lemma RestAfterTaking(at: Spot)
      requires WellFormed(t) && |old(childNodes)| == |childNodes| == |t.nodes|
      requires at.parent < |t.nodes| && Siblings(t, at.parent, old(childNodes[at.parent]))
      requires at.i + 2 < |old(childNodes[at.parent])|
      requires old(RestIntact(childNodes[at.parent][at.i..], at.skip))
      requires var ks, d := old(childNodes[at.parent]), old(childNodes[at.parent])[at.i + 2];
               && childNodes[at.parent] == ks[..at.i + 2] + ks[at.i + 3..]
               && forall m :: 0 <= m < |childNodes| && m != at.parent && !(d <= m < t.end[d]) ==>
                    childNodes[m] == old(childNodes[m])
      ensures childNodes[at.parent][at.i + 1..] == WithoutAside(old(childNodes[at.parent])[at.i..])
      ensures RestIntact(WithoutAside(old(childNodes[at.parent])[at.i..]), at.skip)
    {
      SiblingsWithout(t, at.parent, old(childNodes[at.parent]), at.i);
    }

    twostate lemma RestAfterPlain(at: Spot)
      requires WellFormed(t) && |old(childNodes)| == |childNodes| == |t.nodes|
      requires at.parent < |t.nodes| && Siblings(t, at.parent, old(childNodes[at.parent]))
      requires at.i < |old(childNodes[at.parent])|
      requires old(RestIntact(childNodes[at.parent][at.i..], at.skip))
      requires var k := old(childNodes[at.parent])[at.i];
               forall m :: 0 <= m < |childNodes| && !(k <= m < t.end[k]) ==> childNodes[m] == old(childNodes[m])
      ensures RestIntact(old(childNodes[at.parent])[at.i..][1..], at.skip)
    {
      SiblingsAfter(t, at.parent, old(childNodes[at.parent]), at.i);
    }

    twostate lemma TurnedTaking(at: Spot)
      requires old(LoopReady(at.parent, at.i, at.skip)) && at.i + 2 < |old(childNodes[at.parent])|
      requires Siblings(t, at.parent, old(childNodes[at.parent]))
      requires old(childNodes[at.parent])[at.i] !in at.skip && TakesAside(t, old(childNodes[at.parent])[at.i..])
      requires Parsed(old(childNodes[at.parent])[at.i], at.i)
      ensures Turned(at.parent, at.i, at.skip)
    {
      hide Renderable, Renders, Emit, EmitVisit, EmitVisits;
      var p, skip := at.parent, at.skip;
      var rest := old(childNodes[p])[at.i..];
      var next := WithoutAside(rest);
      var out := Emit(t, cfg, rest[0]) + EmitVisit(t, cfg, p, Aside(rest[2]));
      RestAfterTaking(at);
      TakingStep(t, cfg, p, rest, skip);
      Assoc(old(pieces), Emit(t, cfg, rest[0]), EmitVisit(t, cfg, p, Aside(rest[2])));
      Assoc(old(pieces), out, EmitVisits(t, cfg, p, Order(t, next, skip)));
    }

    twostate lemma TurnedPlainly(at: Spot)
      requires old(LoopReady(at.parent, at.i, at.skip)) && at.i < |old(childNodes[at.parent])|
      requires Siblings(t, at.parent, old(childNodes[at.parent]))
      requires old(childNodes[at.parent])[at.i] !in at.skip && !TakesAside(t, old(childNodes[at.parent])[at.i..])
      requires Wrote(old(childNodes[at.parent])[at.i], Emit(t, cfg, old(childNodes[at.parent])[at.i]))
      ensures Turned(at.parent, at.i, at.skip)
    {
      hide Renderable, Renders, Emit, EmitVisit, EmitVisits;
      var p, skip := at.parent, at.skip;
      var ks := old(childNodes[p]);
      var rest := ks[at.i..];
      RestAfterPlain(at);
      PlainStep(t, cfg, p, rest, skip);
      assert ks[at.i + 1..] == rest[1..];
      Assoc(old(pieces), Emit(t, cfg, rest[0]), EmitVisits(t, cfg, p, Order(t, rest[1..], skip)));
    }

    twostate lemma TurnedSkipping(at: Spot)
      requires old(LoopReady(at.parent, at.i, at.skip)) && at.i < |old(childNodes[at.parent])|
      requires old(childNodes[at.parent])[at.i] in at.skip
      requires pieces == old(pieces) && childNodes == old(childNodes)
      ensures Turned(at.parent, at.i, at.skip)
    {
      var rest := childNodes[at.parent][at.i..];
      assert childNodes[at.parent][at.i + 1..] == rest[1..];
      assert forall k :: k in rest[1..] ==> k in rest;
    }

    /** The child the loop stands at may be parsed: a header finds the nodes after it in place. */
    lemma ChildReady(p: nat, i: nat, skip: set<nat>)
      requires LoopReady(p, i, skip) && i < |childNodes[p]| && childNodes[p][i] !in skip
      ensures Siblings(t, p, childNodes[p])
      ensures var n := childNodes[p][i];
              && p < n < |t.nodes| && t.parent[n] == p && n < t.end[n] <= t.end[p]
              && Intact(n) && HeaderReady(n, i)
              && (Detaches(n, i) <==> TakesAside(t, childNodes[p][i..]))
    {
      hide Renderable, Renders, Order, Pruned;
      PrunedOrdered(t, childNodes);
      var rest := childNodes[p][i..];
      assert Siblings(t, p, childNodes[p]);
      assert rest[0] == childNodes[p][i] && rest[0] in rest;
      if TakesAside(t, rest) {
        assert rest[2] == childNodes[p][i + 2] && rest[2] in rest;
        assert rest[2] !in skip;
      }
    }

    /** One turn of the loop. The list iterated over is the live one, which a header may shorten
        behind the loop's back. */
    method ParseNext(p: nat, i: nat, skip: set<nat>)
      requires LoopReady(p, i, skip) && i < |childNodes[p]|
      modifies this
      ensures Turned(p, i, skip)
      decreases Size(t, p), 4
    {
      hide Renderable, Renders, Emit, EmitVisit, EmitVisits, Order, HeaderReady, RestIntact, HeadersFit;
      var n := childNodes[p][i];
      if n in skip {
        TurnedSkipping(Spot(p, i, skip));
      } else {
        ChildReady(p, i, skip);
        ghost var takes := TakesAside(t, childNodes[p][i..]);
        Parse(n, i, Size(t, p));
        if takes {
          TurnedTaking(Spot(p, i, skip));
        } else {
          TurnedPlainly(Spot(p, i, skip));
        }
      }
    }

    /** The loops `for n in node.childNodes: if n not in ...: self.parse(n)`. */
    method ParseChildren(p: nat, skip: set<nat>)
      requires Ready() && p < |t.nodes| && childNodes[p] == t.kids[p]
      requires forall k :: k in skip ==> !HasTag(t, k, Header) && !HasTag(t, k, Description)
      requires RestIntact(t.kids[p], skip)
      requires Below(t, p, Order(t, t.kids[p], skip))
      modifies this
      ensures Wrote(p, EmitVisits(t, cfg, p, Order(t, t.kids[p], skip)))
      decreases Size(t, p), 5
    {
      hide Emit, EmitVisit, EmitVisits;
      assert Renders(t, cfg, p);
      var i := 0;
      assert childNodes[p][0..] == t.kids[p];
      while i < |childNodes[p]|
        invariant LoopReady(p, i, skip)
        invariant pieces + EmitVisits(t, cfg, p, Order(t, childNodes[p][i..], skip))
               == old(pieces) + EmitVisits(t, cfg, p, Order(t, t.kids[p], skip))
        invariant forall m :: 0 <= m < |childNodes| && !(p <= m < t.end[p]) ==> childNodes[m] == old(childNodes[m])
        decreases |childNodes[p]| - i
      {
        ParseNext(p, i, skip);
        i := i + 1;
      }
      assert childNodes[p][i..] == [] && Order(t, [], skip) == [];
      NothingLeft(t, cfg, p);
    }

    method SpaceParse(n: nat)
      requires Ready() && n < |t.nodes| && Intact(n)
      modifies this
      ensures Wrote(n, [" "] + EmitKids(t, cfg, n))
      decreases Size(t, n), 7
    {
      AddText(" ");
      GenericParse(n);
    }

    method DoCompoundName(n: nat)
      requires Ready() && HasTag(t, n, CompoundName) && Intact(n)
      modifies this
      ensures Wrote(n, EmitElement(t, cfg, n, CompoundName))
    {
      assert Renders(t, cfg, n);
      AddText("\n\n");
      var data := FirstData(t, childNodes[n]).value;
      AddText(FEATURE + data + " \"\n");
    }

    /** The loop over the named children of a class, in the order of `names`. */
    method ParseNamed(p: nat, first: map<Tag, nat>, names: seq<Tag>)
      requires Ready() && p < |t.nodes| && Intact(p)
      requires forall i, j :: 0 <= i < j < |names| ==> names[i] != names[j]
      requires forall g :: g in first ==> first[g] in t.kids[p] && HasTag(t, first[g], g) && g != Header
      requires Below(t, p, Named(first, names))
      modifies this
      ensures Wrote(p, EmitVisits(t, cfg, p, Named(first, names)))
      ensures childNodes[p] == t.kids[p] && RestIntact(t.kids[p], first.Values)
      decreases Size(t, p), 5
    {
      hide Renderable, Renders, Emit, EmitVisit, EmitVisits;
      KidsBelow(t, p);
      var j := 0;
      assert names[0..] == names;
      while j < |names|
        invariant 0 <= j <= |names|
        invariant Ready() && childNodes[p] == t.kids[p] && RestIntact(t.kids[p], first.Values)
        invariant forall i :: j <= i < |names| && names[i] in first ==> Intact(first[names[i]])
        invariant Below(t, p, Named(first, names[j..]))
        invariant pieces + EmitVisits(t, cfg, p, Named(first, names[j..]))
               == old(pieces) + EmitVisits(t, cfg, p, Named(first, names))
        invariant forall m :: 0 <= m < |childNodes| && !(p <= m < t.end[p]) ==> childNodes[m] == old(childNodes[m])
      {
        var name := names[j];
        ghost var rest, was := names[j..], pieces;
        NamedStep(t, cfg, p, first, rest);
        assert rest[1..] == names[j + 1..];
        if name in first {
          ParseNamedOne(p, first, names, j);
          Assoc(was, Emit(t, cfg, first[name]), EmitVisits(t, cfg, p, Named(first, rest[1..])));
        }
        j := j + 1;
      }
      assert Named(first, names[j..]) == [];
      NothingLeft(t, cfg, p);
    }

    method ParseNamedOne(p: nat, first: map<Tag, nat>, names: seq<Tag>, j: nat)
      requires Ready() && p < |t.nodes| && childNodes[p] == t.kids[p] && RestIntact(t.kids[p], first.Values)
      requires forall i, k :: 0 <= i < k < |names| ==> names[i] != names[k]
      requires forall g :: g in first ==> first[g] in t.kids[p] && HasTag(t, first[g], g) && g != Header
      requires j < |names| && names[j] in first
      requires forall i :: j <= i < |names| && names[i] in first ==> Intact(first[names[i]])
      modifies this
      ensures Wrote(p, Emit(t, cfg, first[names[j]]))
      ensures childNodes[p] == t.kids[p] && RestIntact(t.kids[p], first.Values)
      ensures forall i :: j + 1 <= i < |names| && names[i] in first ==> Intact(first[names[i]])
      decreases Size(t, p), 4
    {
      hide Renderable, Renders, Emit, EmitVisit, EmitVisits;
      KidsBelow(t, p);
      var k := first[names[j]];
      Parse(k, 0, Size(t, p));
      forall other | other in t.kids[p] && other !in first.Values
        ensures Intact(other)
      {
        SiblingsApart(t, p, k, other);
      }
      forall i | j + 1 <= i < |names| && names[i] in first
        ensures Intact(first[names[i]])
      {
        SiblingsApart(t, p, k, first[names[i]]);
      }
    }

    /** The loop over the sections of a file or namespace. */
    method ParseSections(p: nat, ns: seq<nat>)
      requires Ready() && p < |t.nodes| && Intact(p)
      requires ns == DoxygenTree.Find(t, p, SectionDef) && Below(t, p, Directs(ns))
      modifies this
      ensures Wrote(p, EmitVisits(t, cfg, p, Directs(ns)))
      decreases Size(t, p), 5
    {
      hide Renderable, Renders, Emit, EmitVisit, EmitVisits;
      SectionsDisjoint(t, cfg, p);
      SectionsTagged(t, p);
      var j := 0;
      assert ns[0..] == ns;
      while j < |ns|
        invariant 0 <= j <= |ns|
        invariant Ready()
        invariant forall i :: j <= i < |ns| ==> Intact(ns[i])
        invariant Below(t, p, Directs(ns[j..]))
        invariant pieces + EmitVisits(t, cfg, p, Directs(ns[j..])) == old(pieces) + EmitVisits(t, cfg, p, Directs(ns))
        invariant forall m :: 0 <= m < |childNodes| && !(p <= m < t.end[p]) ==> childNodes[m] == old(childNodes[m])
      {
        ghost var rest, was := ns[j..], pieces;
        SectionStep(t, cfg, p, rest);
        assert rest[1..] == ns[j + 1..];
        Parse(ns[j], 0, Size(t, p));
        Assoc(was, Emit(t, cfg, ns[j]), EmitVisits(t, cfg, p, Directs(rest[1..])));
        j := j + 1;
      }
      assert Directs(ns[j..]) == [];
      NothingLeft(t, cfg, p);
    }

    method DoCompoundDef(n: nat)
      requires Ready() && HasTag(t, n, CompoundDef) && Intact(n)
      modifies this
      ensures Wrote(n, EmitCompound(t, cfg, n))
      decreases Size(t, n), 7
    {
      hide Renderable, Renders, Emit, EmitVisit, EmitVisits, Search, SpecificNodes;
      var kind := Attr(t, n, "kind");
      if IsClass(kind) {
        if Attr(t, n, "prot") == Some("public") {
          WriteClass(n);
        }
      } else if IsFile(kind) {
        LiveSearch(n, SectionDef);
        SectionsBelow(t, n);
        var nodes := Search(t, childNodes, n, childNodes[n], SectionDef);
        ParseSections(n, nodes);
      }
    }

    /** The branch of `do_compounddef` for a public class or struct. */
    method WriteClass(n: nat)
      requires Ready() && HasTag(t, n, CompoundDef) && Intact(n)
      requires IsClass(Attr(t, n, "kind")) && Attr(t, n, "prot") == Some("public")
      modifies this
      ensures Wrote(n, EmitCompound(t, cfg, n))
      decreases Size(t, n), 6
    {
      hide Renderable, Renders, Emit, EmitVisit, EmitVisits, Search, SpecificNodes, Order, Named;
      ghost var before := pieces;
      var first := SpecificNodes(t, childNodes[n], CLASS_NAME_SET);
      ClassFacts(t, n);
      ClassBelow(t, n);
      ghost var named := EmitVisits(t, cfg, n, Named(first, CLASS_NAMES));
      ParseNamed(n, first, CLASS_NAMES);
      AddTexts([CLOSER, "\n"]);
      ParseChildren(n, first.Values);
      Assoc(before, named, [CLOSER, "\n"]);
      Assoc(before, named + [CLOSER, "\n"], EmitVisits(t, cfg, n, Order(t, t.kids[n], first.Values)));
    }

    /** A search of the document as it is now finds what it would have found at the start. */
    lemma LiveSearch(n: nat, tag: Tag)
      requires Ready() && n < |t.nodes|
      requires tag == CompoundDef || tag == CompoundName || tag == InnerNamespace || tag == SectionDef
      ensures Ordered(t, childNodes)
      ensures Search(t, childNodes, n, childNodes[n], tag) == DoxygenTree.Find(t, n, tag)
    {
      PrunedOrdered(t, childNodes);
      SearchPruned(t, childNodes, n, childNodes[n], t.kids[n], tag);
    }

    method DoIncludes(n: nat)
      requires Ready() && HasTag(t, n, Includes) && Intact(n)
      modifies this
      ensures Wrote(n, EmitElement(t, cfg, n, Includes))
      decreases Size(t, n), 7
    {
      hide Renderable, Emit, EmitKids, EmitVisits, EmitVisit, Siblings;
      AddText("C++ includes: ");
      GenericParse(n, 1);
    }

    method DoParameterList(n: nat)
      requires Ready() && HasTag(t, n, ParameterList) && Intact(n)
      modifies this
      ensures Wrote(n, EmitElement(t, cfg, n, ParameterList))
      decreases Size(t, n), 7
    {
      hide Renderable, Emit, EmitKids, EmitVisits, EmitVisit, Siblings;
      AddTexts(["\n", "\n", ParameterHeading(Attr(t, n, "kind")), ":", "\n"]);
      GenericParse(n, 1);
    }

    method DoPara(n: nat)
      requires Ready() && HasTag(t, n, Para) && Intact(n)
      modifies this
      ensures Wrote(n, EmitElement(t, cfg, n, Para))
      decreases Size(t, n), 7
    {
      hide Renderable, Emit, EmitKids, EmitVisits, EmitVisit, Siblings;
      AddText("\n");
      GenericParse(n, 1);
    }

    method DoParameterName(n: nat)
      requires Ready() && HasTag(t, n, ParameterName) && Intact(n)
      modifies this
      ensures Wrote(n, EmitElement(t, cfg, n, ParameterName))
    {
      assert Renders(t, cfg, n);
      AddText("\n");
      KidsBelow(t, n);
      var data := if FirstData(t, childNodes[n]).Some? then FirstData(t, childNodes[n]).value
                  else FirstData(t, childNodes[childNodes[n][0]]).value;
      AddText(ParameterNamePiece(data));
    }

    method DoMemberDef(n: nat)
      requires Ready() && HasTag(t, n, MemberDef) && Intact(n)
      modifies this
      ensures Wrote(n, EmitMember(t, cfg, n))
      decreases Size(t, n), 7
    {
      hide Renderable, Renders, Emit, EmitVisit, EmitVisits, Search, SpecificNodes, FirstData, IsFile, IsClass;
      var kind := Attr(t, n, "kind");
      var tmp := Up(t, Up(t, Up(t, n)));
      CompoundFacts(t, cfg, n);
      LiveSearch(tmp, CompoundDef);
      var compdef := Search(t, childNodes, tmp, childNodes[tmp], CompoundDef)[0];
      var cdefKind := Attr(t, compdef, "kind");
      if Attr(t, n, "prot") == Some("public") {
        var first := SpecificNodes(t, childNodes[n], MEMBER_NAMES);
        NameFacts(t, cfg, n);
        var name := FirstData(t, childNodes[first[Name]]).value;
        if IsOperator(name) {
          return;
        }
        if Definition !in first || kind == Some("variable") || kind == Some("typedef") {
          return;
        }
        var defn := "";
        if cfg.includeDefinition {
          DefinitionFacts(t, cfg, n);
          defn := FirstData(t, childNodes[first[Definition]]).value;
        }
        WriteMember(n, first, cdefKind, name, defn);
      }
    }

    /** The rest of `do_memberdef`, for a member that passes the filters. */
    method WriteMember(n: nat, first: map<Tag, nat>, cdefKind: Option<string>, name: string, defn: string)
      requires Ready() && HasTag(t, n, MemberDef) && Intact(n) && Documented(t, n) && first == MemberFirst(t, n)
      requires cdefKind == CompoundKind(t, n) && NameOf(t, n) == Some(name) && DefinitionOf(t, cfg, n) == Some(defn)
      modifies this
      ensures Wrote(n, EmitMember(t, cfg, n))
      decreases Size(t, n), 6
    {
      hide Renderable, Renders, Emit, EmitVisit, EmitVisits, MemberNaming, Documented, Search, SpecificNodes,
        FirstData, NameOf, DefinitionOf, CompoundKind, Order;
      MemberSkips(t, n);
      ghost var head, before := MemberHead(t, cfg, n), pieces;
      ghost var body := EmitVisits(t, cfg, n, Order(t, t.kids[n], first.Values));
      AddText("\n");
      AddText(FEATURE);
      NameMember(n, cdefKind, name, defn);
      Assoc(before, ["\n"], [FEATURE]);
      Assoc(before, ["\n", FEATURE], MemberNaming(t, cfg, n));
      assert ["\n"] + [FEATURE] == ["\n", FEATURE];
      KidsIntact(n, first.Values);
      ParseChildren(n, first.Values);
      AddTexts([CLOSER, "\n"]);
      Assoc(before, head, body);
      Assoc(before, head + body, [CLOSER, "\n"]);
    }

    lemma KidsIntact(n: nat, skip: set<nat>)
      requires WellFormed(t) && |childNodes| == |t.nodes| && n < |t.nodes| && Intact(n)
      ensures RestIntact(t.kids[n], skip)
    {
      KidsBelow(t, n);
    }

    /** The piece that names the member and opens its docstring. */
    method NameMember(n: nat, cdefKind: Option<string>, name: string, defn: string)
      requires Ready() && HasTag(t, n, MemberDef) && Documented(t, n)
      requires cdefKind == CompoundKind(t, n) && NameOf(t, n) == Some(name) && DefinitionOf(t, cfg, n) == Some(defn)
      modifies this`pieces
      ensures pieces == old(pieces) + MemberNaming(t, cfg, n)
    {
      hide Renderable, Renders, Search, FirstData, CompoundKind, NameOf, DefinitionOf, Scope;
      ScopeFacts(t, cfg, n);
      var anc := Up(t, Up(t, n));
      LiveSearch(anc, InnerNamespace);
      LiveSearch(anc, CompoundName);
      if IsFile(cdefKind) {
        var nsNode := Search(t, childNodes, anc, childNodes[anc], InnerNamespace);
        if nsNode == [] && cdefKind == Some("namespace") {
          nsNode := Search(t, childNodes, anc, childNodes[anc], CompoundName);
        }
        assert nsNode == ScopeNodes(t, n);
        if nsNode != [] {
          var ns := LiveData(nsNode[0]);
          AddText(" " + ns + "::" + name + " \"\n" + defn);
        } else {
          AddText(" " + name + " \"\n" + defn);
        }
      } else if IsClass(cdefKind) {
        var ancNode := Search(t, childNodes, anc, childNodes[anc], CompoundName);
        assert ancNode == ScopeNodes(t, n);
        var cname := LiveData(ancNode[0]);
        AddText(" " + cname + "::" + name + " \"\n" + defn);
      }
    }

    /** `node.firstChild.data` on the document as it is now. */
    method LiveData(n: nat) returns (data: string)
      requires Ready() && n < |t.nodes| && FirstData(t, t.kids[n]).Some?
      ensures data == FirstData(t, t.kids[n]).value
    {
      FirstDataPruned(t, childNodes[n], t.kids[n]);
      data := FirstData(t, childNodes[n]).value;
    }

    method DoDefinition(n: nat)
      requires Ready() && HasTag(t, n, Definition) && Intact(n)
      modifies this
      ensures Wrote(n, EmitElement(t, cfg, n, Definition))
    {
      assert Renders(t, cfg, n);
      var data := FirstData(t, childNodes[n]).value;
      AddText(data + " \"\n" + data);
    }

    method DoSectionDef(n: nat)
      requires Ready() && HasTag(t, n, SectionDef) && Intact(n)
      modifies this
      ensures Wrote(n, EmitElement(t, cfg, n, SectionDef))
      decreases Size(t, n), 7
    {
      hide Renderable, Emit, EmitKids, EmitVisits, EmitVisit, Siblings;
      if Selected(Attr(t, n, "kind")) {
        GenericParse(n);
      }
    }

    method DoHeader(n: nat, ghost at: nat, ghost bound: nat)
      requires Ready() && HasTag(t, n, Header) && Intact(n) && HeaderReady(n, at)
      requires Size(t, t.parent[n]) <= bound
      modifies this
      ensures Parsed(n, at)
      decreases bound, 1
    {
      hide Renderable, Renders, Emit, EmitKids, EmitVisits, Pruned;
      ghost var takes, was := Detaches(n, at), pieces;
      HeaderFacts(t, cfg, n);
      var data := FirstData(t, childNodes[n]).value;
      AddText("\n/*\n " + data + " \n*/\n");
      var parent := t.parent[n];
      var ks := childNodes[parent];
      PrunedOrdered(t, childNodes);
      assert Siblings(t, parent, ks);
      var idx := IndexOf(ks, n);
      assert idx == at;
      if |ks| >= idx + 2 {
        var nd := ks[idx + 2];
        assert ks[at..][2] == nd && takes <==> HasTag(t, nd, Description);
        if HasTag(t, nd, Description) {
          PruneOne(t, ks, t.kids[parent], idx + 2);
          childNodes := childNodes[parent := ks[..idx + 2] + ks[idx + 3..]];
          WriteAside(nd);
          Assoc(was, Emit(t, cfg, n), EmitVisit(t, cfg, parent, Aside(nd)));
          return;
        }
      }
      assert !takes;
      assert Wrote(n, Emit(t, cfg, n));
    }

    /** The detached description, between comment markers. */
    method WriteAside(nd: nat)
      requires Ready() && nd < |t.nodes| && Intact(nd)
      modifies this
      ensures Wrote(nd, ["\n/*"] + EmitKids(t, cfg, nd) + ["\n*/\n"])
      decreases Size(t, nd), 7
    {
      hide Renderable, Renders, Emit, EmitKids, EmitVisits, EmitVisit, Pruned;
      ghost var before := pieces;
      AddText("\n/*");
      GenericParse(nd);
      AddText("\n*/\n");
      Assoc(before, ["\n/*"], EmitKids(t, cfg, nd));
      Assoc(before, ["\n/*"] + EmitKids(t, cfg, nd), ["\n*/\n"]);
    }

    method DoSimpleSect(n: nat)
      requires Ready() && HasTag(t, n, SimpleSect) && Intact(n)
      modifies this
      ensures Wrote(n, EmitElement(t, cfg, n, SimpleSect))
      decreases Size(t, n), 7
    {
      hide Emit, EmitKids, EmitVisits, EmitVisit, Siblings;
      assert Renders(t, cfg, n);
      var kind := Attr(t, n, "kind").value;
      if kind == "date" || kind == "rcs" || kind == "version" {
      } else if kind == "warning" {
        AddTexts(["\n", "WARNING: "]);
        GenericParse(n);
      } else if kind == "see" {
        AddText("\n");
        AddText("See: ");
        GenericParse(n);
      } else {
        GenericParse(n);
      }
    }

    method DoMember(n: nat)
      requires Ready() && HasTag(t, n, Member) && Intact(n)
      modifies this
      ensures Wrote(n, EmitElement(t, cfg, n, Member))
      decreases Size(t, n), 7
    {
      hide Emit, EmitKids, EmitVisits, EmitVisit, Siblings;
      assert Renders(t, cfg, n);
      if Attr(t, n, "kind") == Some("function") && "namespace" <= Attr(t, n, "refid").value {
        GenericParse(n);
      }
    }
  }
}
