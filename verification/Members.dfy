/** Which members are documented in the text for a document of Doxygen's shape, and what their
    directives say, in terms of the document alone. */
module Members {
  import opened Wrappers
  import opened SwigLexer
  import opened DoxygenTree
  import opened DoxygenEmitter
  import opened DocstringBalance
  import opened Directives
  import opened InterfaceBalance
  import opened DocumentContent

  // ---------- Which members ----------

  predicate SectionIsWritten(t: Tree, s: nat) {
    && HasTag(t, s, SectionDef)
    && (Says(t, s, "kind", "public-func") || Says(t, s, "kind", "func")
        || Says(t, s, "kind", "user-defined") || Says(t, s, "kind", ""))
  }

  /** The text first in the last child with the tag. */
  function TextOfLast(t: Tree, n: nat, tag: Tag): string {
    if n < |t.kids| && LastOf(t, t.kids[n], tag).Some? && LastOf(t, t.kids[n], tag).value < |t.kids|
       && FirstData(t, t.kids[LastOf(t, t.kids[n], tag).value]).Some?
    then FirstData(t, t.kids[LastOf(t, t.kids[n], tag).value]).value else ""
  }

  /** A public function, or what else is neither a variable nor a type, with a definition, and with
      a name whose first eight characters are not "operator". */
  ghost predicate MemberPasses(t: Tree, k: nat) {
    && HasTag(t, k, MemberDef) && k < |t.kids|
    && Says(t, k, "prot", "public")
    && !Says(t, k, "kind", "variable") && !Says(t, k, "kind", "typedef")
    && (exists d :: d in t.kids[k] && HasTag(t, d, Definition))
    && !(|TextOfLast(t, k, Name)| >= 8 && TextOfLast(t, k, Name)[..8] == "operator")
  }

  /** The sections of a public class are its children, those of a file or namespace all below it. */
  ghost predicate SectionOf(t: Tree, c: nat, s: nat)
    requires WellFormed(t) && c < |t.nodes|
  {
    || ((Says(t, c, "kind", "class") || Says(t, c, "kind", "struct")) && Says(t, c, "prot", "public") && s in t.kids[c])
    || ((Says(t, c, "kind", "file") || Says(t, c, "kind", "namespace"))
        && assert Ordered(t, t.kids); Reaches(t, t.kids, c, t.kids[c], s))
  }

  ghost predicate MemberIsWritten(t: Tree, c: nat, k: nat)
    requires WellFormed(t) && c < |t.nodes|
  {
    MemberPasses(t, k)
    && exists s: nat :: s < |t.nodes| && SectionOf(t, c, s) && SectionIsWritten(t, s) && k in t.kids[s]
  }

  lemma {:induction false} LastIsMember(t: Tree, ks: seq<nat>, tag: Tag)
    ensures LastOf(t, ks, tag).Some? <==> exists d :: d in ks && HasTag(t, d, tag)
    ensures LastOf(t, ks, tag).Some? ==> LastOf(t, ks, tag).value in ks
    decreases |ks|
  {
    if ks != [] {
      LastIsMember(t, ks[..|ks| - 1], tag);
      assert ks == ks[..|ks| - 1] + [ks[|ks| - 1]];
    }
  }

  /** The filters of `do_memberdef` let exactly these members through. */
  lemma PassesIff(t: Tree, cfg: Config, k: nat)
    requires Renderable(t, cfg) && HasTag(t, k, MemberDef)
    ensures Documented(t, k) <==> MemberPasses(t, k)
  {
    hide Renders, SpecificNodes, LastOf, Siblings, NameOf, TextOfLast;
    assert Attr(t, k, "prot") == Some("public") <==> Says(t, k, "prot", "public");
    assert Attr(t, k, "kind") == Some("variable") <==> Says(t, k, "kind", "variable");
    assert Attr(t, k, "kind") == Some("typedef") <==> Says(t, k, "kind", "typedef");
    LastIsMember(t, t.kids[k], Definition);
    LastIsSpecific(t, t.kids[k], MEMBER_NAMES, Definition);
    if Attr(t, k, "prot") == Some("public") {
      NameIsLast(t, cfg, k);
    }
  }

  lemma NameIsLast(t: Tree, cfg: Config, k: nat)
    requires Renderable(t, cfg) && HasTag(t, k, MemberDef) && Attr(t, k, "prot") == Some("public")
    ensures NameOf(t, k) == Some(TextOfLast(t, k, Name))
  {
    hide Renders, Renderable, SpecificNodes, LastOf, Siblings;
    NameFacts(t, cfg, k);
    LastIsSpecific(t, t.kids[k], MEMBER_NAMES, Name);
  }

  // ---------- The members found, in order ----------

  /** The written members that are children of a section, or the node itself if it is one. */
  ghost function Found(t: Tree, n: nat): seq<nat>
    requires n < |t.nodes| == |t.kids|
  {
    if HasTag(t, n, SectionDef) && SectionIsWritten(t, n) then Passing(t, t.kids[n]) else Passing(t, [n])
  }

  ghost function Passing(t: Tree, ks: seq<nat>): seq<nat> {
    if ks == [] then [] else (if MemberPasses(t, ks[0]) then [ks[0]] else []) + Passing(t, ks[1..])
  }

  ghost function AllFound(t: Tree, ns: seq<nat>): seq<nat>
    requires |t.nodes| == |t.kids| && forall n :: n in ns ==> n < |t.nodes|
  {
    if ns == [] then []
    else
      assert ns[0] in ns && forall n :: n in ns[1..] ==> n in ns;
      Found(t, ns[0]) + AllFound(t, ns[1..])
  }

  ghost function DirectivesAt(t: Tree, cfg: Config, ms: seq<nat>): seq<Directive>
    requires Renderable(t, cfg) && forall m :: m in ms ==> MemberPasses(t, m)
  {
    if ms == [] then []
    else
      assert ms[0] in ms && forall m :: m in ms[1..] ==> m in ms;
      assert HasTag(t, ms[0], MemberDef) by { assert MemberPasses(t, ms[0]); }
      PassesIff(t, cfg, ms[0]);
      [MemberDirective(t, cfg, ms[0])] + DirectivesAt(t, cfg, ms[1..])
  }

  lemma {:induction false} DirectivesAtConcat(t: Tree, cfg: Config, a: seq<nat>, b: seq<nat>)
    requires Renderable(t, cfg) && (forall m :: m in a ==> MemberPasses(t, m)) && (forall m :: m in b ==> MemberPasses(t, m))
    ensures DirectivesAt(t, cfg, a + b) == DirectivesAt(t, cfg, a) + DirectivesAt(t, cfg, b)
    decreases |a|
  {
    hide MemberPasses, Renderable, MemberDirective;
    if a == [] {
      assert a + b == b;
    } else {
      assert (a + b)[0] == a[0] && (a + b)[1..] == a[1..] + b;
      assert forall m :: m in a[1..] ==> m in a;
      DirectivesAtConcat(t, cfg, a[1..], b);
    }
  }

  lemma {:induction false} PassingIff(t: Tree, ks: seq<nat>, k: nat)
    ensures k in Passing(t, ks) <==> k in ks && MemberPasses(t, k)
    decreases |ks|
  {
    hide MemberPasses;
    if ks != [] {
      PassingIff(t, ks[1..], k);
      assert ks == [ks[0]] + ks[1..];
    }
  }

  lemma PassingOne(t: Tree, k: nat)
    ensures Passing(t, [k]) == if MemberPasses(t, k) then [k] else []
  {
    hide MemberPasses;
    assert [k][1..] == [];
    assert Passing(t, []) == [];
    assert [k] + [] == [k];
  }

  lemma FoundElsewhere(t: Tree, n: nat)
    requires n < |t.nodes| == |t.kids| && !HasTag(t, n, SectionDef)
    ensures Found(t, n) == if MemberPasses(t, n) then [n] else []
  {
    PassingOne(t, n);
  }

  lemma FoundPasses(t: Tree, n: nat)
    requires n < |t.nodes| == |t.kids|
    ensures forall m :: m in Found(t, n) ==> MemberPasses(t, m)
  {
    hide MemberPasses, Passing;
    forall m
      ensures m in Found(t, n) ==> MemberPasses(t, m)
    {
      PassingIff(t, t.kids[n], m);
      PassingIff(t, [n], m);
    }
  }

  lemma {:induction false} AllFoundPass(t: Tree, ns: seq<nat>)
    requires |t.nodes| == |t.kids| && forall n :: n in ns ==> n < |t.nodes|
    ensures forall m :: m in AllFound(t, ns) ==> MemberPasses(t, m)
    decreases |ns|
  {
    hide MemberPasses, Found;
    if ns != [] {
      assert ns[0] in ns && forall n :: n in ns[1..] ==> n in ns;
      FoundPasses(t, ns[0]);
      AllFoundPass(t, ns[1..]);
    }
  }

  // ---------- The directives are theirs ----------

  /** The directives of `n` are those of the members found at it. */
  ghost predicate Accounted(t: Tree, cfg: Config, n: nat)
    requires Renderable(t, cfg) && n < |t.nodes|
  {
    FoundPasses(t, n);
    DirectivesOf(t, cfg, n) == DirectivesAt(t, cfg, Found(t, n))
  }

  lemma NothingFound(t: Tree, cfg: Config, n: nat)
    requires Renderable(t, cfg) && n < |t.nodes| && !HasTag(t, n, MemberDef)
    requires HasTag(t, n, SectionDef) ==> !SectionIsWritten(t, n)
    ensures Found(t, n) == []
  {
    PassingOne(t, n);
  }

  /** A loop over children gathers the directives of the members found at them. */
  lemma {:induction false} ListAccounted(t: Tree, cfg: Config, p: nat, ks: seq<nat>, skip: set<nat>)
    requires Renderable(t, cfg) && p < |t.nodes| && (forall k :: k in ks ==> k < |t.nodes|)
    requires Below(t, p, Order(t, ks, skip))
    requires forall v :: v in Order(t, ks, skip) && v.Direct? ==> Accounted(t, cfg, v.id)
    requires forall k :: k in ks && k in skip ==> Found(t, k) == []
    ensures (forall m :: m in AllFound(t, ks) ==> MemberPasses(t, m))
    ensures Gathered(t, cfg, p, Order(t, ks, skip)) == DirectivesAt(t, cfg, AllFound(t, ks))
    decreases |ks|
  {
    hide MemberPasses, Renders, DirectivesOf, Found, DirectivesAt, SectionIsWritten;
    AllFoundPass(t, ks);
    if ks == [] {
      NoDirectives(t, cfg);
    } else {
      var k, rest := ks[0], ks[1..];
      assert k in ks && forall x :: x in rest ==> x in ks;
      if k in skip {
        ListAccounted(t, cfg, p, rest, skip);
        assert AllFound(t, ks) == AllFound(t, rest);
      } else if TakesAside(t, ks) {
        TakenAccounted(t, cfg, p, ks, skip);
      } else {
        assert Order(t, ks, skip) == [Direct(k)] + Order(t, rest, skip);
        assert Direct(k) in Order(t, ks, skip);
        assert forall v :: v in Order(t, rest, skip) ==> v in Order(t, ks, skip);
        assert (Order(t, ks, skip))[1..] == Order(t, rest, skip);
        ListAccounted(t, cfg, p, rest, skip);
        FoundPasses(t, k);
        DirectivesAtConcat(t, cfg, Found(t, k), AllFound(t, rest));
      }
    }
  }

  lemma NoDirectives(t: Tree, cfg: Config)
    requires Renderable(t, cfg)
    ensures DirectivesAt(t, cfg, []) == []
  {
  }

  /** A header with its description: neither has members. */
  lemma {:induction false} TakenAccounted(t: Tree, cfg: Config, p: nat, ks: seq<nat>, skip: set<nat>)
    requires Renderable(t, cfg) && p < |t.nodes| && (forall k :: k in ks ==> k < |t.nodes|)
    requires Below(t, p, Order(t, ks, skip))
    requires forall v :: v in Order(t, ks, skip) && v.Direct? ==> Accounted(t, cfg, v.id)
    requires forall k :: k in ks && k in skip ==> Found(t, k) == []
    requires TakesAside(t, ks) && ks[0] !in skip
    ensures (forall m :: m in AllFound(t, ks) ==> MemberPasses(t, m))
    ensures Gathered(t, cfg, p, Order(t, ks, skip)) == DirectivesAt(t, cfg, AllFound(t, ks))
    decreases |ks|, 0
  {
    hide MemberPasses, Renders, DirectivesOf, Found, AllFound, DirectivesAt, SectionIsWritten, Gathered;
    var k, d := ks[0], ks[2];
    var rest := WithoutAside(ks);
    var vs := Order(t, rest, skip);
    assert k in ks && d in ks && forall y :: y in rest ==> y in ks;
    assert Order(t, ks, skip) == [Direct(k), Aside(d)] + vs;
    assert forall v :: v in vs ==> v in Order(t, ks, skip);
    ListAccounted(t, cfg, p, rest, skip);
    NothingFound(t, cfg, k);
    NothingFound(t, cfg, d);
    HeaderDirectives(t, cfg, k);
    AllFoundPass(t, ks);
    FoundAround(t, ks);
    GatheredTwo(t, cfg, p, k, d, vs);
  }

  lemma GatheredTwo(t: Tree, cfg: Config, p: nat, k: nat, d: nat, vs: seq<Visit>)
    requires Renderable(t, cfg) && p < |t.nodes| && Below(t, p, [Direct(k), Aside(d)] + vs)
    requires k < |t.nodes| && DirectivesOf(t, cfg, k) == []
    ensures Below(t, p, vs) && Gathered(t, cfg, p, [Direct(k), Aside(d)] + vs) == Gathered(t, cfg, p, vs)
  {
    hide DirectivesOf, Renders;
    var all := [Direct(k), Aside(d)] + vs;
    assert all[0] == Direct(k) && all[1..] == [Aside(d)] + vs && ([Aside(d)] + vs)[1..] == vs;
    assert (forall v :: v in [Aside(d)] + vs ==> v in all) && (forall v :: v in vs ==> v in all);
  }

  lemma FoundAround(t: Tree, ks: seq<nat>)
    requires |t.nodes| == |t.kids| && (forall k :: k in ks ==> k < |t.nodes|)
    requires |ks| >= 3 && ks[0] in ks && ks[2] in ks && Found(t, ks[0]) == [] && Found(t, ks[2]) == []
    ensures forall k :: k in WithoutAside(ks) ==> k in ks
    ensures AllFound(t, ks) == AllFound(t, WithoutAside(ks))
  {
    hide Found;
    var rest := WithoutAside(ks);
    assert ks[1] in ks;
    assert (forall k :: k in ks[1..] ==> k in ks) && (forall k :: k in ks[2..] ==> k in ks) && (forall k :: k in ks[3..] ==> k in ks);
    assert forall k :: k in rest ==> k in ks;
    assert AllFound(t, ks) == [] + AllFound(t, ks[1..]);
    assert AllFound(t, ks[1..]) == Found(t, ks[1]) + AllFound(t, ks[2..]);
    assert AllFound(t, ks[2..]) == [] + AllFound(t, ks[3..]);
    assert AllFound(t, rest) == Found(t, ks[1]) + AllFound(t, ks[3..]);
    assert rest[0] == ks[1] && rest[1..] == ks[3..];
    assert ks[1..][0] == ks[1] && ks[1..][1..] == ks[2..] && ks[2..][0] == ks[2] && ks[2..][1..] == ks[3..];
  }

  // ---------- Sections and compounds ----------

  lemma QuietAccounted(t: Tree, cfg: Config, n: nat)
    requires Renderable(t, cfg) && n < |t.nodes| && Quiet(t, cfg, n)
    ensures Accounted(t, cfg, n) && Found(t, n) == []
  {
    hide DirectivesOf, Renders;
    QuietEmits(t, cfg, n);
    NothingFound(t, cfg, n);
  }

  lemma MemberAccounted(t: Tree, cfg: Config, k: nat)
    requires Renderable(t, cfg) && HasTag(t, k, MemberDef)
    ensures Accounted(t, cfg, k)
  {
    hide DirectivesOf, Renders, MemberPasses, Documented, MemberDirective;
    MemberDirectives(t, cfg, k);
    PassesIff(t, cfg, k);
    FoundPasses(t, k);
    PassingOne(t, k);
    FoundElsewhere(t, k);
    assert Found(t, k) == if MemberPasses(t, k) then [k] else [];
    if MemberPasses(t, k) {
      assert DirectivesAt(t, cfg, [k]) == [MemberDirective(t, cfg, k)] + DirectivesAt(t, cfg, []);
    }
  }

  lemma HeaderAccounted(t: Tree, cfg: Config, k: nat)
    requires Renderable(t, cfg) && HasTag(t, k, Header)
    ensures Accounted(t, cfg, k)
  {
    hide DirectivesOf, Renders;
    HeaderDirectives(t, cfg, k);
    NothingFound(t, cfg, k);
  }

  lemma SelectedIff(t: Tree, s: nat)
    requires HasTag(t, s, SectionDef)
    ensures Selected(Attr(t, s, "kind")) <==> SectionIsWritten(t, s)
  {
  }

  lemma SectionAccounted(t: Tree, cfg: Config, c: nat, s: nat)
    requires Renderable(t, cfg) && HasTag(t, s, SectionDef) && SectionShape(t, cfg, c, s)
    ensures Accounted(t, cfg, s)
  {
    hide DirectivesOf, Renders, MemberPasses, Found, SectionIsWritten, Quiet, MemberShape, DirectivesAt;
    SelectedIff(t, s);
    SectionDirectives(t, cfg, s);
    if !SectionIsWritten(t, s) {
      NothingFound(t, cfg, s);
      NoDirectives(t, cfg);
    } else {
      var ks := t.kids[s];
      KidsBelow(t, s);
      forall v | v in Order(t, ks, {}) && v.Direct?
        ensures Accounted(t, cfg, v.id)
      {
        assert SectionVisitShape(t, cfg, c, v);
        if Quiet(t, cfg, v.id) {
          QuietAccounted(t, cfg, v.id);
        } else if HasTag(t, v.id, MemberDef) {
          MemberAccounted(t, cfg, v.id);
        } else {
          HeaderAccounted(t, cfg, v.id);
        }
      }
      ListAccounted(t, cfg, s, ks, {});
      NoSectionsWithin(t, cfg, s);
      FoundInSection(t, ks);
      FoundHere(t, s);
    }
  }

  lemma FoundHere(t: Tree, s: nat)
    requires s < |t.nodes| == |t.kids| && SectionIsWritten(t, s)
    ensures Found(t, s) == Passing(t, t.kids[s])
  {
  }

  lemma NoSectionsWithin(t: Tree, cfg: Config, s: nat)
    requires Renderable(t, cfg) && HasTag(t, s, SectionDef)
    ensures forall k :: k in t.kids[s] ==> k < |t.nodes| && !HasTag(t, k, SectionDef)
  {
    hide Renders;
    KidsBelow(t, s);
    assert Siblings(t, s, t.kids[s]);
  }

  lemma {:induction false} FoundInSection(t: Tree, ks: seq<nat>)
    requires |t.nodes| == |t.kids| && forall k :: k in ks ==> k < |t.nodes| && !HasTag(t, k, SectionDef)
    ensures AllFound(t, ks) == Passing(t, ks)
    decreases |ks|
  {
    hide MemberPasses;
    if ks != [] {
      assert ks[0] in ks && forall k :: k in ks[1..] ==> k in ks;
      FoundInSection(t, ks[1..]);
      FoundElsewhere(t, ks[0]);
    }
  }

  // ---------- The order of the members ----------

  /** The members found at siblings come in document order, and nothing is found twice. */
  lemma {:induction false} FoundIncreasing(t: Tree, p: nat, ks: seq<nat>, lo: nat)
    requires WellFormed(t) && p < |t.nodes|
    requires forall i :: 0 <= i < |ks| ==> lo <= ks[i] < |t.nodes| && t.end[ks[i]] <= t.end[p]
    requires forall i, j :: 0 <= i < j < |ks| ==> t.end[ks[i]] <= ks[j]
    ensures forall k :: k in ks ==> k < |t.nodes|
    ensures Increasing(AllFound(t, ks)) && forall m :: m in AllFound(t, ks) ==> lo <= m < t.end[p]
    decreases |ks|
  {
    hide Found;
    if ks != [] {
      assert forall k :: k in ks[1..] ==> k in ks;
      FoundBetween(t, ks[0]);
      FoundIncreasing(t, p, ks[1..], t.end[ks[0]]);
      IncreasingConcat(Found(t, ks[0]), AllFound(t, ks[1..]), t.end[ks[0]]);
    }
  }

  lemma FoundBetween(t: Tree, n: nat)
    requires WellFormed(t) && n < |t.nodes|
    ensures Increasing(Found(t, n)) && forall m :: m in Found(t, n) ==> n <= m < t.end[n]
  {
    hide MemberPasses;
    assert Siblings(t, n, t.kids[n]);
    if HasTag(t, n, SectionDef) && SectionIsWritten(t, n) {
      PassingIncreasing(t, t.kids[n]);
      forall m | m in Passing(t, t.kids[n])
        ensures n <= m < t.end[n]
      {
        PassingIff(t, t.kids[n], m);
      }
    } else {
      PassingOne(t, n);
    }
  }

  lemma {:induction false} PassingIncreasing(t: Tree, ks: seq<nat>)
    requires Increasing(ks)
    ensures Increasing(Passing(t, ks))
    decreases |ks|
  {
    hide MemberPasses;
    if ks != [] {
      PassingIncreasing(t, ks[1..]);
      forall m | m in Passing(t, ks[1..])
        ensures ks[0] < m
      {
        PassingIff(t, ks[1..], m);
        var i :| 0 <= i < |ks[1..]| && ks[1..][i] == m;
        assert ks[i + 1] == m;
      }
      if MemberPasses(t, ks[0]) {
        IncreasingConcat([ks[0]], Passing(t, ks[1..]), ks[0] + 1);
      } else {
        assert [] + Passing(t, ks[1..]) == Passing(t, ks[1..]);
      }
    }
  }

  lemma {:induction false} AllFoundIff(t: Tree, ns: seq<nat>, m: nat)
    requires |t.nodes| == |t.kids| && forall n :: n in ns ==> n < |t.nodes|
    ensures m in AllFound(t, ns) <==> exists n :: n in ns && m in Found(t, n)
    decreases |ns|
  {
    hide Found;
    if ns != [] {
      assert ns[0] in ns && forall n :: n in ns[1..] ==> n in ns;
      AllFoundIff(t, ns[1..], m);
      assert ns == [ns[0]] + ns[1..];
    }
  }

  // ---------- The whole document ----------

  /** The nodes at which the members of a compound are found. */
  ghost function Places(t: Tree, c: nat): seq<nat>
    requires WellFormed(t) && c < |t.nodes|
  {
    if Says(t, c, "kind", "class") || Says(t, c, "kind", "struct") then
      if Says(t, c, "prot", "public") then t.kids[c] else []
    else if Says(t, c, "kind", "file") || Says(t, c, "kind", "namespace") then Find(t, c, SectionDef)
    else []
  }

  lemma ClassAccounted(t: Tree, cfg: Config, c: nat)
    requires Renderable(t, cfg) && HasTag(t, c, CompoundDef) && ClassShape(t, cfg, c) && IsClass(Attr(t, c, "kind"))
    ensures Below(t, c, Order(t, t.kids[c], ClassFirst(t, c).Values))
    ensures forall k :: k in t.kids[c] ==> k < |t.nodes|
    ensures forall m :: m in AllFound(t, t.kids[c]) ==> MemberPasses(t, m)
    ensures Gathered(t, cfg, c, Order(t, t.kids[c], ClassFirst(t, c).Values)) == DirectivesAt(t, cfg, AllFound(t, t.kids[c]))
  {
    hide DirectivesOf, Renders, MemberPasses, Found, Quiet, DirectivesAt, SpecificNodes, Gathered, AllEnclosed, SectionShape;
    KidsBelow(t, c);
    ClassBelow(t, c);
    ClassFacts(t, c);
    var skip := ClassFirst(t, c).Values;
    forall v | v in Order(t, t.kids[c], skip) && v.Direct?
      ensures Accounted(t, cfg, v.id)
    {
      if Quiet(t, cfg, v.id) {
        QuietAccounted(t, cfg, v.id);
      } else {
        SectionAccounted(t, cfg, c, v.id);
      }
    }
    forall k | k in t.kids[c] && k in skip
      ensures Found(t, k) == []
    {
      NamedAreOthers(t, c, k);
      NothingFound(t, cfg, k);
    }
    ListAccounted(t, cfg, c, t.kids[c], skip);
  }

  lemma NamedAreOthers(t: Tree, c: nat, k: nat)
    requires WellFormed(t) && c < |t.nodes| && k in ClassFirst(t, c).Values && k < |t.nodes|
    ensures !HasTag(t, k, MemberDef) && !HasTag(t, k, SectionDef)
  {
    hide SpecificNodes;
    SpecificInList(t, t.kids[c], CLASS_NAME_SET);
    assert MemberDef !in CLASS_NAME_SET && SectionDef !in CLASS_NAME_SET;
  }

  lemma {:induction false} DirectsAccounted(t: Tree, cfg: Config, p: nat, ns: seq<nat>)
    requires Renderable(t, cfg) && p < |t.nodes| && (forall n :: n in ns ==> n < |t.nodes| && Accounted(t, cfg, n))
    requires Below(t, p, Directs(ns))
    ensures forall m :: m in AllFound(t, ns) ==> MemberPasses(t, m)
    ensures Gathered(t, cfg, p, Directs(ns)) == DirectivesAt(t, cfg, AllFound(t, ns))
    decreases |ns|
  {
    hide MemberPasses, Renders, DirectivesOf, Found, DirectivesAt;
    AllFoundPass(t, ns);
    if ns == [] {
      NoDirectives(t, cfg);
    } else {
      assert ns[0] in ns && forall n :: n in ns[1..] ==> n in ns;
      SectionStep(t, cfg, p, ns);
      assert Directs(ns)[0] == Direct(ns[0]) && Directs(ns)[1..] == Directs(ns[1..]);
      DirectsAccounted(t, cfg, p, ns[1..]);
      FoundPasses(t, ns[0]);
      DirectivesAtConcat(t, cfg, Found(t, ns[0]), AllFound(t, ns[1..]));
    }
  }

  lemma FileAccounted(t: Tree, cfg: Config, c: nat)
    requires Renderable(t, cfg) && HasTag(t, c, CompoundDef) && CompoundShape(t, cfg, c) && IsFile(Attr(t, c, "kind"))
    ensures Below(t, c, Directs(Find(t, c, SectionDef)))
    ensures forall n :: n in Find(t, c, SectionDef) ==> n < |t.nodes|
    ensures forall m :: m in AllFound(t, Find(t, c, SectionDef)) ==> MemberPasses(t, m)
    ensures Gathered(t, cfg, c, Directs(Find(t, c, SectionDef))) == DirectivesAt(t, cfg, AllFound(t, Find(t, c, SectionDef)))
  {
    hide DirectivesOf, Renders, MemberPasses, Found, DirectivesAt, Gathered, SectionShape, Search, Directs, ClassShape;
    var ns := Find(t, c, SectionDef);
    SectionsBelow(t, c);
    SectionsTagged(t, c);
    forall n | n in ns
      ensures n < |t.nodes| && Accounted(t, cfg, n)
    {
      var i :| 0 <= i < |ns| && ns[i] == n;
      SectionAccounted(t, cfg, c, n);
    }
    DirectsAccounted(t, cfg, c, ns);
  }

  lemma PlacesExist(t: Tree, c: nat)
    requires WellFormed(t) && c < |t.nodes|
    ensures forall n :: n in Places(t, c) ==> n < |t.nodes|
  {
    hide Search;
    KidsBelow(t, c);
    SectionsBelow(t, c);
    SectionsTagged(t, c);
  }

  /** The directives of a compound: its own, if it is a public class, and those of the members found
      at its places. */
  lemma CompoundAccounted(t: Tree, cfg: Config, c: nat)
    requires Renderable(t, cfg) && HasTag(t, c, CompoundDef) && CompoundShape(t, cfg, c)
    ensures forall n :: n in Places(t, c) ==> n < |t.nodes|
    ensures forall m :: m in AllFound(t, Places(t, c)) ==> MemberPasses(t, m)
    ensures DirectivesOf(t, cfg, c) == ClassPart(t, cfg, c) + DirectivesAt(t, cfg, AllFound(t, Places(t, c)))
  {
    hide DirectivesOf, Renders, MemberPasses, Found, DirectivesAt, Gathered, ClassShape, Search, Directs, SpecificNodes,
      ClassDirective, Order;
    PlacesExist(t, c);
    AllFoundPass(t, Places(t, c));
    NoDirectives(t, cfg);
    if IsClass(Attr(t, c, "kind")) {
      ClassDirectives(t, cfg, c);
      if Attr(t, c, "prot") == Some("public") {
        ClassAccounted(t, cfg, c);
      }
    } else {
      FileDirectives(t, cfg, c);
      if IsFile(Attr(t, c, "kind")) {
        FileAccounted(t, cfg, c);
      }
    }
  }

  /** The directive of a compound itself: of a public class or struct only. */
  ghost function ClassPart(t: Tree, cfg: Config, c: nat): seq<Directive>
    requires Renderable(t, cfg) && c < |t.nodes|
  {
    if (Says(t, c, "kind", "class") || Says(t, c, "kind", "struct")) && Says(t, c, "prot", "public")
    then [ClassDirective(t, cfg, c)] else []
  }

  /** The members found at the places of a compound are those written, in document order. */
  lemma PlacesHold(t: Tree, cfg: Config, c: nat)
    requires Renderable(t, cfg) && HasTag(t, c, CompoundDef) && CompoundShape(t, cfg, c)
    ensures forall n :: n in Places(t, c) ==> n < |t.nodes|
    ensures Increasing(AllFound(t, Places(t, c)))
    ensures forall k :: k in AllFound(t, Places(t, c)) <==> MemberIsWritten(t, c, k)
  {
    hide Renders, MemberPasses, Found, AllFound, ClassShape, Search, SectionIsWritten, SectionShape;
    PlacesExist(t, c);
    var ns := Places(t, c);
    assert Siblings(t, c, t.kids[c]);
    SectionsDisjoint(t, cfg, c);
    FoundIncreasing(t, c, ns, c);
    forall k
      ensures k in AllFound(t, ns) <==> MemberIsWritten(t, c, k)
    {
      AllFoundIff(t, ns, k);
      PlaceHolds(t, cfg, c, k);
    }
  }

  lemma PlaceHolds(t: Tree, cfg: Config, c: nat, k: nat)
    requires Renderable(t, cfg) && HasTag(t, c, CompoundDef) && CompoundShape(t, cfg, c)
    requires forall n :: n in Places(t, c) ==> n < |t.nodes|
    ensures (exists n :: n in Places(t, c) && k in Found(t, n)) <==> MemberIsWritten(t, c, k)
  {
    hide Renders, MemberPasses, ClassShape, Search, SectionShape, Passing, Reaches, SectionIsWritten;
    var ns := Places(t, c);
    forall n | n in ns
      ensures k in Found(t, n) <==> SectionIsWritten(t, n) && k in t.kids[n] && MemberPasses(t, k)
    {
      PlaceIsSection(t, cfg, c, n);
      PassingIff(t, t.kids[n], k);
      WrittenIsSection(t, n);
      if !HasTag(t, n, SectionDef) || !SectionIsWritten(t, n) {
        NothingFound(t, cfg, n);
      }
    }
    forall s: nat | s < |t.nodes| && SectionIsWritten(t, s)
      ensures s in ns <==> SectionOf(t, c, s)
    {
      WrittenIsSection(t, s);
      assert Ordered(t, t.kids) && Siblings(t, c, t.kids[c]);
      SearchFindsAll(t, t.kids, c, t.kids[c], SectionDef, s);
    }
  }

  lemma QuietIsNoMember(t: Tree, cfg: Config, n: nat)
    requires WellFormed(t) && n < |t.nodes| && Quiet(t, cfg, n)
    ensures !HasTag(t, n, MemberDef)
  {
  }

  lemma ChildVisited(t: Tree, cfg: Config, c: nat, n: nat)
    requires WellFormed(t) && c < |t.nodes| && ClassShape(t, cfg, c) && n in t.kids[c] && n !in ClassFirst(t, c).Values
    ensures n < |t.nodes| && (Quiet(t, cfg, n) || HasTag(t, n, SectionDef))
  {
    hide Quiet, SectionShape, SpecificNodes, AllEnclosed, Order;
    VisitedIsDirect(t, t.kids[c], ClassFirst(t, c).Values, n);
    assert Direct(n).id == n;
  }

  lemma WrittenIsSection(t: Tree, s: nat)
    ensures SectionIsWritten(t, s) ==> HasTag(t, s, SectionDef)
  {
  }

  /** No member stands outside a section. */
  lemma PlaceIsSection(t: Tree, cfg: Config, c: nat, n: nat)
    requires Renderable(t, cfg) && HasTag(t, c, CompoundDef) && CompoundShape(t, cfg, c) && n in Places(t, c) && n < |t.nodes|
    ensures !HasTag(t, n, MemberDef)
  {
    hide Renders, Search, SectionShape, SpecificNodes, AllEnclosed, Quiet, Order, ClassShape;
    SectionsTagged(t, c);
    if IsClass(Attr(t, c, "kind")) {
      var first := ClassFirst(t, c);
      if n in first.Values {
        NamedAreOthers(t, c, n);
      } else {
        ChildVisited(t, cfg, c, n);
        if Quiet(t, cfg, n) {
          QuietIsNoMember(t, cfg, n);
        }
      }
    } else {
      var ns := Find(t, c, SectionDef);
      var i :| 0 <= i < |ns| && ns[i] == n;
    }
  }

  lemma AsideVisited(t: Tree, ks: seq<nat>, skip: set<nat>)
    requires ks != [] && ks[0] !in skip && TakesAside(t, ks)
    ensures Aside(ks[2]) in Order(t, ks, skip)
  {
    assert Order(t, ks, skip)[1] == Aside(ks[2]);
  }

  /** In a list without asides every child that is not left out is visited itself. */
  lemma {:induction false} VisitedIsDirect(t: Tree, ks: seq<nat>, skip: set<nat>, k: nat)
    requires k in ks && k !in skip
    requires forall v :: v in Order(t, ks, skip) ==> v.Direct?
    ensures Direct(k) in Order(t, ks, skip)
    decreases |ks|
  {
    if ks[0] in skip {
      VisitedIsDirect(t, ks[1..], skip, k);
    } else if TakesAside(t, ks) {
      AsideVisited(t, ks, skip);
      assert false;
    } else if k != ks[0] {
      assert forall v :: v in Order(t, ks[1..], skip) ==> v in Order(t, ks, skip);
      VisitedIsDirect(t, ks[1..], skip, k);
    }
  }

  lemma {:induction false} RootAccounted(t: Tree, cfg: Config, c: nat, vs: seq<Visit>)
    requires Renderable(t, cfg) && DoxygenShape(t, cfg, c) && Below(t, Up(t, c), vs)
    requires forall v :: v in vs ==> v.Direct? && (v.id == c || Quiet(t, cfg, v.id))
    requires Different(vs)
    ensures Gathered(t, cfg, Up(t, c), vs) == if Direct(c) in vs then DirectivesOf(t, cfg, c) else []
    decreases |vs|
  {
    hide DirectivesOf, Renders, DoxygenShape, Quiet;
    if vs != [] {
      assert vs[0] in vs && vs == [vs[0]] + vs[1..];
      assert forall w :: w in vs[1..] ==> w in vs;
      RootAccounted(t, cfg, c, vs[1..]);
      if vs[0].id == c {
        assert vs[0] == Direct(c) && Direct(c) !in vs[1..];
      } else {
        QuietEmits(t, cfg, vs[0].id);
      }
    }
  }

  predicate Different<T(==)>(xs: seq<T>) {
    forall i, j :: 0 <= i < j < |xs| ==> xs[i] != xs[j]
  }

  lemma DifferentCons<T>(x: T, xs: seq<T>)
    requires Different(xs) && x !in xs
    ensures Different([x] + xs)
  {
  }

  lemma {:induction false} OrderWithin(t: Tree, ks: seq<nat>, skip: set<nat>)
    ensures forall v :: v in Order(t, ks, skip) ==> v.id in ks
    decreases |ks|
  {
    if ks != [] {
      if ks[0] !in skip && TakesAside(t, ks) {
        OrderWithin(t, WithoutAside(ks), skip);
      } else {
        OrderWithin(t, ks[1..], skip);
      }
    }
  }

  lemma {:induction false} OrderDistinct(t: Tree, ks: seq<nat>, skip: set<nat>)
    requires Different(ks)
    ensures Different(Order(t, ks, skip))
    decreases |ks|
  {
    if ks != [] {
      if ks[0] in skip {
        OrderDistinct(t, ks[1..], skip);
      } else if TakesAside(t, ks) {
        var rest := WithoutAside(ks);
        WithoutDistinct(ks);
        OrderDistinct(t, rest, skip);
        OrderWithin(t, rest, skip);
        DifferentCons(Aside(ks[2]), Order(t, rest, skip));
        DifferentCons(Direct(ks[0]), [Aside(ks[2])] + Order(t, rest, skip));
        assert Order(t, ks, skip) == [Direct(ks[0])] + ([Aside(ks[2])] + Order(t, rest, skip));
      } else {
        OrderDistinct(t, ks[1..], skip);
        OrderWithin(t, ks[1..], skip);
        DifferentCons(Direct(ks[0]), Order(t, ks[1..], skip));
      }
    }
  }

  lemma WithoutDistinct(ks: seq<nat>)
    requires |ks| >= 3 && Different(ks)
    ensures Different(WithoutAside(ks)) && ks[0] !in WithoutAside(ks) && ks[2] !in WithoutAside(ks)
  {
    var rest := WithoutAside(ks);
    assert forall i :: 0 < i < |rest| ==> rest[i] == ks[i + 2];
  }

  /** The members of a document that put a directive in its text are exactly those that pass the
      filters in a written section; the directives of the document are those of the class, if it is
      one, and theirs, in document order. */
  lemma DirectivesAreOfMembers(t: Tree, cfg: Config, c: nat) returns (ms: seq<nat>)
    requires Renderable(t, cfg) && DoxygenShape(t, cfg, c)
    ensures Increasing(ms) && forall k :: k in ms <==> MemberIsWritten(t, c, k)
    ensures forall m :: m in ms ==> MemberPasses(t, m)
    ensures DirectivesOf(t, cfg, Up(t, c)) == ClassPart(t, cfg, c) + DirectivesAt(t, cfg, ms)
  {
    hide DirectivesOf, Renders, MemberPasses, MemberIsWritten, AllFound, DirectivesAt, CompoundShape, Places, Order, Quiet, ClassPart;
    CompoundAccounted(t, cfg, c);
    PlacesHold(t, cfg, c);
    ms := AllFound(t, Places(t, c));
    var root := Up(t, c);
    OtherDirectives(t, cfg, root);
    assert Siblings(t, root, t.kids[root]);
    OrderDistinct(t, t.kids[root], {});
    VisitedIsDirect(t, t.kids[root], {}, c);
    RootAccounted(t, cfg, c, Order(t, t.kids[root], {}));
  }

  // ---------- What the directives say ----------

  /** The first node with the tag below `n`, in document order. */
  ghost predicate FirstBelow(t: Tree, n: nat, tag: Tag, x: nat)
    requires WellFormed(t) && n < |t.nodes|
  {
    && assert Ordered(t, t.kids) && Siblings(t, n, t.kids[n]);
    && HasTag(t, x, tag) && Reaches(t, t.kids, n, t.kids[n], x)
    && forall y :: 0 <= y < x ==> !(HasTag(t, y, tag) && Reaches(t, t.kids, n, t.kids[n], y))
  }

  lemma FirstIsFound(t: Tree, n: nat, tag: Tag, x: nat)
    requires WellFormed(t) && n < |t.nodes|
    ensures FirstBelow(t, n, tag, x) <==> Find(t, n, tag) != [] && Find(t, n, tag)[0] == x
  {
    hide Search, Reaches, Siblings;
    var found := Find(t, n, tag);
    FoundIff(t, n, tag);
    if found != [] {
      assert found[0] in found;
      forall y | 0 <= y < found[0]
        ensures y !in found
      {
      }
    }
    if FirstBelow(t, n, tag, x) {
      var i :| 0 <= i < |found| && found[i] == x;
      assert !(found[0] < x);
    }
  }

  lemma FoundIff(t: Tree, n: nat, tag: Tag)
    requires WellFormed(t) && n < |t.nodes|
    ensures Increasing(Find(t, n, tag)) && Ordered(t, t.kids) && Siblings(t, n, t.kids[n])
    ensures forall y: nat :: y in Find(t, n, tag) <==> HasTag(t, y, tag) && Reaches(t, t.kids, n, t.kids[n], y)
  {
    hide Search, Reaches;
    assert Ordered(t, t.kids) && Siblings(t, n, t.kids[n]);
    KidsBelow(t, n);
    SearchSound(t, t.kids, n, t.kids[n], tag, n + 1);
    forall y: nat
      ensures y in Find(t, n, tag) <==> HasTag(t, y, tag) && Reaches(t, t.kids, n, t.kids[n], y)
    {
      SearchFindsAll(t, t.kids, n, t.kids[n], tag, y);
    }
  }

  ghost predicate NoneBelow(t: Tree, n: nat, tag: Tag)
    requires WellFormed(t) && n < |t.nodes|
  {
    forall x :: !FirstBelow(t, n, tag, x)
  }

  ghost predicate QualifiedBy(t: Tree, c: nat, tag: Tag, name: string, written: string)
    requires WellFormed(t) && c < |t.nodes|
  {
    exists x :: FirstBelow(t, c, tag, x) && written == TextIn(t, x) + "::" + name
  }

  /** A member is qualified by the class it is in; in a file or namespace by the first namespace
      named inside; in a namespace without one by its own name; and else not at all. */
  ghost predicate Qualified(t: Tree, c: nat, name: string, written: string)
    requires WellFormed(t) && c < |t.nodes|
  {
    if Says(t, c, "kind", "class") || Says(t, c, "kind", "struct") then QualifiedBy(t, c, CompoundName, name, written)
    else if !NoneBelow(t, c, InnerNamespace) then QualifiedBy(t, c, InnerNamespace, name, written)
    else if Says(t, c, "kind", "namespace") && !NoneBelow(t, c, CompoundName)
    then QualifiedBy(t, c, CompoundName, name, written)
    else written == name
  }

  /** What the directive of a member says: its qualified name, its definition as it stands, and the
      content of its documentation. */
  ghost predicate DirectiveSays(t: Tree, cfg: Config, c: nat, k: nat, d: Directive)
    requires WellFormed(t) && c < |t.nodes| && k < |t.nodes|
  {
    && Qualified(t, c, TextOfLast(t, k, Name), d.name)
    && d.definition == (if cfg.includeDefinition then TextOfLast(t, k, Definition) else "")
    && (forall m :: m in t.kids[k] ==> k < m < |t.nodes| && t.end[m] <= t.end[k])
    && Spells(d.body, ContentOf(t, cfg, k, t.kids[k]))
  }

  lemma ScopeIsQualified(t: Tree, cfg: Config, c: nat, k: nat)
    requires Renderable(t, cfg) && DoxygenShape(t, cfg, c) && HasTag(t, k, MemberDef) && Documented(t, k) && Up(t, Up(t, k)) == c
    requires IsClass(Attr(t, c, "kind")) || IsFile(Attr(t, c, "kind"))
    ensures Qualified(t, c, TextOfLast(t, k, Name), MemberName(Scope(t, k), TextOfLast(t, k, Name)))
  {
    hide Renders, DoxygenShape, Search, FirstBelow, Documented, TextOfLast, Siblings, SpecificNodes;
    CompoundOfMember(t, cfg, c, k);
    ScopeFacts(t, cfg, k);
    NoneIsFound(t, c, InnerNamespace);
    NoneIsFound(t, c, CompoundName);
    var ns := ScopeNodes(t, k);
    if ns != [] {
      FirstIsFound(t, c, InnerNamespace, ns[0]);
      FirstIsFound(t, c, CompoundName, ns[0]);
      assert TextIn(t, ns[0]) == Scope(t, k).value;
    }
  }

  lemma NoneIsFound(t: Tree, n: nat, tag: Tag)
    requires WellFormed(t) && n < |t.nodes|
    ensures NoneBelow(t, n, tag) <==> Find(t, n, tag) == []
  {
    hide Search, FirstBelow;
    forall x: nat
      ensures FirstBelow(t, n, tag, x) <==> Find(t, n, tag) != [] && Find(t, n, tag)[0] == x
    {
      FirstIsFound(t, n, tag, x);
    }
    if Find(t, n, tag) != [] {
      assert FirstBelow(t, n, tag, Find(t, n, tag)[0]);
    }
  }

  lemma DefinitionIsLast(t: Tree, cfg: Config, k: nat)
    requires Renderable(t, cfg) && HasTag(t, k, MemberDef) && Documented(t, k)
    ensures DefinitionOf(t, cfg, k) == Some(if cfg.includeDefinition then TextOfLast(t, k, Definition) else "")
  {
    hide Renders, Renderable, SpecificNodes, LastOf, Siblings, Documented;
    if cfg.includeDefinition {
      DefinitionFacts(t, cfg, k);
      LastIsSpecific(t, t.kids[k], MEMBER_NAMES, Definition);
    }
  }

  lemma MemberSays(t: Tree, cfg: Config, c: nat, k: nat)
    requires Renderable(t, cfg) && DoxygenShape(t, cfg, c) && HasTag(t, k, MemberDef)
    requires MemberShape(t, cfg, c, k) && Documented(t, k)
    requires IsClass(Attr(t, c, "kind")) || IsFile(Attr(t, c, "kind"))
    ensures DirectiveSays(t, cfg, c, k, MemberDirective(t, cfg, k))
  {
    hide Renders, DoxygenShape, Search, FirstBelow, TextOfLast, Siblings, SpecificNodes, Spells, Qualified,
      MemberName, ContentOf, Inert, AllEnclosed;
    NameIsLast(t, cfg, k);
    DefinitionIsLast(t, cfg, k);
    ScopeIsQualified(t, cfg, c, k);
    MemberBodySays(t, cfg, c, k);
  }

  /** A child that is no description is visited itself, whatever headers take out. */
  lemma {:induction false} DirectVisited(t: Tree, ks: seq<nat>, skip: set<nat>, k: nat)
    requires k in ks && k !in skip && !HasTag(t, k, Description)
    ensures Direct(k) in Order(t, ks, skip)
    decreases |ks|
  {
    if ks[0] in skip {
      DirectVisited(t, ks[1..], skip, k);
    } else if k != ks[0] {
      if TakesAside(t, ks) {
        assert k in WithoutAside(ks) by {
          var i :| 0 <= i < |ks| && ks[i] == k;
          assert i >= 3 ==> ks[3..][i - 3] == k;
        }
        DirectVisited(t, WithoutAside(ks), skip, k);
      } else {
        DirectVisited(t, ks[1..], skip, k);
      }
    }
  }

  lemma WrittenHasShape(t: Tree, cfg: Config, c: nat, k: nat)
    requires Renderable(t, cfg) && HasTag(t, c, CompoundDef) && CompoundShape(t, cfg, c) && MemberIsWritten(t, c, k)
    ensures HasTag(t, k, MemberDef) && MemberShape(t, cfg, c, k)
  {
    hide Renders, Search, MemberShape, Quiet, Reaches, ClassShape, Order;
    var s: nat :| s < |t.nodes| && SectionOf(t, c, s) && SectionIsWritten(t, s) && k in t.kids[s];
    SelectedIff(t, s);
    SectionHasShape(t, cfg, c, s);
    assert !HasTag(t, k, Description);
    DirectVisited(t, t.kids[s], {}, k);
    assert SectionVisitShape(t, cfg, c, Direct(k));
    if Quiet(t, cfg, k) {
      QuietIsNoMember(t, cfg, k);
    }
  }

  lemma SectionHasShape(t: Tree, cfg: Config, c: nat, s: nat)
    requires Renderable(t, cfg) && HasTag(t, c, CompoundDef) && CompoundShape(t, cfg, c)
    requires s < |t.nodes| && SectionOf(t, c, s) && HasTag(t, s, SectionDef)
    ensures SectionShape(t, cfg, c, s)
  {
    hide Renders, Search, SectionShape, Quiet, Reaches, Order, AllEnclosed, SpecificNodes;
    assert Ordered(t, t.kids) && Siblings(t, c, t.kids[c]);
    SearchFindsAll(t, t.kids, c, t.kids[c], SectionDef, s);
    if IsClass(Attr(t, c, "kind")) {
      if s in ClassFirst(t, c).Values {
        NamedAreOthers(t, c, s);
      }
      VisitedIsDirect(t, t.kids[c], ClassFirst(t, c).Values, s);
      assert Direct(s).id == s;
      if Quiet(t, cfg, s) {
        QuietIsNoSection(t, cfg, s);
      }
    }
  }

  lemma QuietIsNoSection(t: Tree, cfg: Config, n: nat)
    requires WellFormed(t) && n < |t.nodes| && Quiet(t, cfg, n)
    ensures !HasTag(t, n, SectionDef)
  {
  }

  /** Every directive of a member says what the document says of it. */
  lemma WrittenMemberSays(t: Tree, cfg: Config, c: nat, k: nat)
    requires Renderable(t, cfg) && DoxygenShape(t, cfg, c) && MemberIsWritten(t, c, k)
    ensures HasTag(t, k, MemberDef) && Documented(t, k)
    ensures DirectiveSays(t, cfg, c, k, MemberDirective(t, cfg, k))
  {
    hide Renders, CompoundShape, MemberShape, Documented, DirectiveSays, MemberDirective, MemberPasses, SectionIsWritten;
    WrittenHasShape(t, cfg, c, k);
    assert MemberPasses(t, k);
    PassesIff(t, cfg, k);
    MemberSays(t, cfg, c, k);
  }

  /** The directive of a class names it, has no definition, and says what its descriptions say. */
  lemma ClassSays(t: Tree, cfg: Config, c: nat)
    requires Renderable(t, cfg) && c < |t.nodes| && ClassShape(t, cfg, c)
    ensures var d := ClassDirective(t, cfg, c);
            && d.name == TextOfLast(t, c, CompoundName) && d.definition == ""
            && Spells(d.body, LastContent(t, cfg, c, BriefDescription)
                              + (LastContent(t, cfg, c, DetailedDescription) + LastContent(t, cfg, c, Includes)))
  {
    hide Renders, SpecificNodes, LastOf, Siblings, ClassShape, Spells, LastContent;
    ClassBodySays(t, cfg, c);
    LastIsSpecific(t, t.kids[c], CLASS_NAME_SET, CompoundName);
  }
}
