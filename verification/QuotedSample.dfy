/** A document of Doxygen's shape with every kind of part, whose member has a definition of the
    reader's choice, and what a quote in that definition does to the file. */
module QuotedSample {
  import opened Wrappers
  import opened SwigLexer
  import opened Escape
  import opened DoxygenTree
  import opened DoxygenEmitter
  import opened DocstringBalance
  import opened Directives
  import opened InterfaceBalance
  import opened Conversion

  // ---------- Finding the one node with a tag ----------

  lemma FindOnly(t: Tree, p: nat, tag: Tag, x: nat)
    requires WellFormed(t) && p < |t.nodes| && x in t.kids[p] && HasTag(t, x, tag)
    requires forall m :: 0 <= m < |t.nodes| && HasTag(t, m, tag) ==> m == x
    ensures Find(t, p, tag) != [] && Find(t, p, tag)[0] == x
  {
    hide Search;
    assert Siblings(t, p, t.kids[p]);
    assert Ordered(t, t.kids);
    var found := Find(t, p, tag);
    var i :| 0 <= i < |t.kids[p]| && t.kids[p][i] == x;
    assert Reaches(t, t.kids, p, t.kids[p], x);
    SearchFindsAll(t, t.kids, p, t.kids[p], tag, x);
    SearchFindsAll(t, t.kids, p, t.kids[p], tag, found[0]);
  }

  // ---------- A class with a section ----------

  /** A public class Foo; in a section of the given kind a header with its description, and a
      public function bar with a definition and a brief description. */
  function Sample(kind: string, defn: string): Tree {
    Tree(seq(18, n requires 0 <= n => SampleNode(kind, defn, n)),
         seq(18, n requires 0 <= n => SampleKids(n)),
         seq(18, n requires 0 <= n => SampleParent(n)),
         seq(18, n requires 0 <= n => SampleEnd(n)))
  }

  function SampleNode(kind: string, defn: string, n: nat): Node {
    match n
    case 0 => Document
    case 1 => Element(Other("doxygen"), map[])
    case 2 => Element(CompoundDef, map["kind" := "class", "prot" := "public"])
    case 3 => Element(CompoundName, map[])
    case 4 => Text("Foo")
    case 5 => Element(SectionDef, map["kind" := kind])
    case 6 => Element(Header, map[])
    case 7 => Text("Handlers")
    case 8 => Text("\n")
    case 9 => Element(Description, map[])
    case 10 => Text("Of *all* kinds.")
    case 11 => Element(MemberDef, map["prot" := "public", "kind" := "function", "id" := "f"])
    case 12 => Element(Definition, map[])
    case 13 => Text(defn)
    case 14 => Element(Name, map[])
    case 15 => Text("bar")
    case 16 => Element(BriefDescription, map[])
    case _ => Text("Does it.")
  }

  function SampleKids(n: nat): seq<nat> {
    match n
    case 2 => [3, 5]
    case 5 => [6, 8, 9, 11]
    case 11 => [12, 14, 16]
    case 0 | 1 | 3 | 6 | 9 | 12 | 14 | 16 => [n + 1]
    case _ => []
  }

  function SampleParent(n: nat): nat {
    match n
    case 0 => 0
    case 5 => 2
    case 8 | 9 | 11 => 5
    case 14 | 16 => 11
    case _ => n - 1
  }

  function SampleEnd(n: nat): nat {
    match n
    case 3 => 5
    case 6 => 8
    case 9 => 11
    case 12 => 14
    case 14 => 16
    case 4 | 7 | 8 | 10 | 13 | 15 => n + 1
    case _ => 18
  }

  lemma SampleSiblings(kind: string, defn: string, n: nat)
    requires n < 18
    ensures Siblings(Sample(kind, defn), n, Sample(kind, defn).kids[n])
  {
  }

  lemma SampleIntervals(kind: string, defn: string)
    ensures var t := Sample(kind, defn);
            && 18 == |t.nodes| == |t.kids| == |t.parent| == |t.end|
            && (forall n :: 0 <= n < 18 ==> n < t.end[n] <= 18)
            && (forall n :: 0 <= n < 18 ==> t.parent[n] < 18)
            && t.nodes[0].Document? && t.parent[0] == 0
  {
  }

  lemma SampleWellFormed(kind: string, defn: string)
    ensures WellFormed(Sample(kind, defn))
  {
    hide Sample, Siblings;
    SampleIntervals(kind, defn);
    var t := Sample(kind, defn);
    forall n | 0 <= n < 18
      ensures Siblings(t, n, t.kids[n])
    {
      SampleSiblings(kind, defn, n);
    }
  }

  /** The parts of the sample that its properties hang on. */
  lemma SampleParts(kind: string, defn: string)
    ensures var t := Sample(kind, defn);
            && 18 == |t.nodes| == |t.kids| == |t.parent| == |t.end|
            && t.kids[0] == [1] && t.kids[1] == [2] && t.kids[2] == [3, 5] && t.kids[3] == [4]
            && t.kids[5] == [6, 8, 9, 11] && t.kids[6] == [7] && t.kids[11] == [12, 14, 16]
            && t.kids[16] == [17] && t.nodes[17] == Text("Does it.")
            && t.nodes[1].Element? && t.nodes[1].tag.Other?
            && t.nodes[4] == Text("Foo") && t.nodes[7] == Text("Handlers") && t.nodes[8] == Text("\n")
            && t.end[9] == 11 && t.end[16] == 18
            && Up(t, 2) == 1 && Up(t, 5) == 2 && Up(t, 6) == 5 && Up(t, 11) == 5
    ensures var t := Sample(kind, defn);
            && Attr(t, 2, "kind") == Some("class") && Attr(t, 2, "prot") == Some("public")
            && Attr(t, 5, "kind") == Some(kind)
  {
  }

  /** The tags of the sample, node by node. */
  lemma SampleTags(kind: string, defn: string, n: nat, tag: Tag)
    requires n < 18
    ensures HasTag(Sample(kind, defn), n, tag) <==>
              && n !in {0, 4, 7, 8, 10, 13, 15, 17}
              && tag == match n
                        case 1 => Other("doxygen")
                        case 2 => CompoundDef
                        case 3 => CompoundName
                        case 5 => SectionDef
                        case 6 => Header
                        case 9 => Description
                        case 11 => MemberDef
                        case 12 => Definition
                        case 14 => Name
                        case _ => BriefDescription
  {
  }

  lemma SampleHeadersFit(kind: string, defn: string, n: nat)
    requires n < 18
    ensures HeadersFit(Sample(kind, defn), Sample(kind, defn).kids[n])
  {
    hide Sample;
    SampleParts(kind, defn);
    var t := Sample(kind, defn);
    var ks := t.kids[n];
    if n == 5 {
      SectionTakesAside(kind, defn);
      assert HeadersFit(t, [8, 11]) by {
        assert [8, 11][1..] == [11] && [11][1..] == [];
      }
    } else {
      SampleSiblings(kind, defn, n);
      forall k | k in ks
        ensures !HasTag(t, k, Header)
      {
        SampleTags(kind, defn, k, Header);
      }
      OtherHeadersFit(t, ks);
    }
  }

  lemma {:induction false} OtherHeadersFit(t: Tree, ks: seq<nat>)
    requires forall k :: k in ks ==> !HasTag(t, k, Header)
    ensures HeadersFit(t, ks)
    decreases |ks|
  {
    if ks != [] {
      assert ks[0] in ks;
      OtherHeadersFit(t, ks[1..]);
    }
  }

  lemma SectionTakesAside(kind: string, defn: string)
    ensures TakesAside(Sample(kind, defn), [6, 8, 9, 11]) && WithoutAside([6, 8, 9, 11]) == [8, 11]
  {
  }

  /** The member's name, definition and class, as `do_memberdef` finds them. */
  lemma SampleMember(kind: string, defn: string)
    requires WellFormed(Sample(kind, defn))
    ensures var t := Sample(kind, defn);
            && MemberFirst(t, 11) == map[Definition := 12, Name := 14] && MemberFirst(t, 11).Values == {12, 14}
            && NameOf(t, 11) == Some("bar") && Documented(t, 11)
            && CompoundKind(t, 11) == Some("class") && Scope(t, 11) == Some("Foo")
            && forall cfg: Config :: DefinitionOf(t, cfg, 11) == Some(if cfg.includeDefinition then defn else "")
  {
    hide WellFormed, Search, SpecificNodes;
    SampleFirst(kind, defn);
    SampleCompound(kind, defn);
    var t := Sample(kind, defn);
    assert NameOf(t, 11) == Some("bar");
  }

  lemma SampleFirst(kind: string, defn: string)
    ensures MemberFirst(Sample(kind, defn), 11) == map[Definition := 12, Name := 14]
    ensures ClassFirst(Sample(kind, defn), 2) == map[CompoundName := 3]
    ensures MemberFirst(Sample(kind, defn), 11).Values == {12, 14} && ClassFirst(Sample(kind, defn), 2).Values == {3}
  {
    var t := Sample(kind, defn);
    assert [12, 14, 16][..2] == [12, 14] && [12, 14][..1] == [12] && [12][..0] == [];
    assert SpecificNodes(t, [12], MEMBER_NAMES) == map[Definition := 12];
    assert SpecificNodes(t, [12, 14], MEMBER_NAMES) == map[Definition := 12, Name := 14];
    assert [3, 5][..1] == [3] && [3][..0] == [];
    assert SpecificNodes(t, [3], CLASS_NAME_SET) == map[CompoundName := 3];
    var member, class_ := map[Definition := 12, Name := 14], map[CompoundName := 3];
    assert member[Definition] == 12 && member[Name] == 14 && class_[CompoundName] == 3;
  }

  lemma SampleCompound(kind: string, defn: string)
    requires WellFormed(Sample(kind, defn))
    ensures CompoundKind(Sample(kind, defn), 11) == Some("class") && Scope(Sample(kind, defn), 11) == Some("Foo")
  {
    hide WellFormed, Search, Sample;
    SampleParts(kind, defn);
    var t := Sample(kind, defn);
    forall m | 0 <= m < 18
      ensures HasTag(t, m, CompoundDef) <==> m == 2
      ensures HasTag(t, m, CompoundName) <==> m == 3
    {
      SampleTags(kind, defn, m, CompoundDef);
      SampleTags(kind, defn, m, CompoundName);
    }
    FindOnly(t, 1, CompoundDef, 2);
    FindOnly(t, 2, CompoundName, 3);
  }

  lemma SampleNodeRenders(kind: string, defn: string, cfg: Config, n: nat)
    requires n < 18 && WellFormed(Sample(kind, defn))
    ensures Renders(Sample(kind, defn), cfg, n)
  {
    hide WellFormed, HeadersFit, Search, SpecificNodes, DefinitionOf, NameOf, Documented, CompoundKind, Scope, ScopeNodes;
    SampleHeadersFit(kind, defn, n);
    if n == 0 {
      assert FirstElement(Sample(kind, defn), [1]) == Some(1);
    } else if n == 11 {
      SampleMember(kind, defn);
    }
  }

  lemma SampleRenders(kind: string, defn: string, cfg: Config)
    ensures Renderable(Sample(kind, defn), cfg)
  {
    hide WellFormed, Renders, HasTag, Sample;
    SampleParts(kind, defn);
    SampleWellFormed(kind, defn);
    var t := Sample(kind, defn);
    forall n | 0 <= n < 18
      ensures Renders(t, cfg, n)
      ensures HasTag(t, n, Description) ==> n == 9
      ensures HasTag(t, n, SectionDef) ==> n == 5
    {
      SampleNodeRenders(kind, defn, cfg, n);
      SampleTags(kind, defn, n, Description);
      SampleTags(kind, defn, n, SectionDef);
    }
    forall d | d == 9 || d == 10
      ensures !HasTag(t, d, CompoundDef) && !HasTag(t, d, CompoundName) && !HasTag(t, d, InnerNamespace)
      ensures !HasTag(t, d, SectionDef) && !HasTag(t, d, MemberDef)
    {
      NoneInDescription(kind, defn, d);
    }
  }

  lemma NoneInDescription(kind: string, defn: string, d: nat)
    requires d == 9 || d == 10
    ensures forall tag :: HasTag(Sample(kind, defn), d, tag) ==> tag == Description
  {
  }

  // ---------- The texts of the sample ----------

  lemma {:induction false} EscapedPlain(s: string)
    requires '\\' !in s && '"' !in s
    ensures EscapeMap(s) == s
    decreases |s|
  {
    if s != "" {
      EscapedPlain(s[1..]);
      assert s == [s[0]] + s[1..];
    }
  }

  lemma EscapedIsItself(s: string)
    requires '\\' !in s && '"' !in s
    ensures Escaped(s) == s
  {
    EscapedIsCharMap(s);
    EscapedPlain(s);
  }

  /** An asterisk in a comment does no harm unless a slash follows. */
  lemma LoneStar(c: char)
    requires c != '/' && c != '*'
    ensures Inert(Block, ['*', c])
  {
    assert ['*', c][1..] == [c] && [c][1..] == "";
    assert After(Star, [c]) == After(Block, "") == Block;
    assert Tokens(Star, [c]) == Tokens(Block, "") == [];
  }

  lemma DescriptionText()
    ensures Inert(Block, Stripped(Escaped("Of *all* kinds.")))
  {
    hide Inert, Escaped;
    var a, b, c, d, e := "Of ", "*a", "ll", "* ", "kinds.";
    assert "Of *all* kinds." == (((a + b) + c) + d) + e;
    PlainIsInert(Block, a);
    LoneStar('a');
    PlainIsInert(Block, c);
    LoneStar(' ');
    PlainIsInert(Block, e);
    InertConcat(Block, a, b);
    InertConcat(Block, a + b, c);
    InertConcat(Block, (a + b) + c, d);
    InertConcat(Block, ((a + b) + c) + d, e);
    EscapedIsItself("Of *all* kinds.");
  }

  lemma SampleEnclosed(kind: string, defn: string)
    ensures AllEnclosed(Sample(kind, defn), Block, 10, 11) && AllEnclosed(Sample(kind, defn), Literal, 16, 18)
  {
    hide Inert, Stripped, Escaped;
    DescriptionText();
  }

  // ---------- The shape of the sample ----------

  lemma SampleOrders(kind: string, defn: string)
    ensures var t := Sample(kind, defn);
            && DocumentElement(t, 0) == Some(1)
            && Order(t, [2], {}) == [Direct(2)]
            && Order(t, [3, 5], {3}) == [Direct(5)]
            && Order(t, [6, 8, 9, 11], {}) == [Direct(6), Aside(9), Direct(8), Direct(11)]
  {
    var t := Sample(kind, defn);
    SectionTakesAside(kind, defn);
    assert FirstElement(t, [1]) == Some(1);
    assert [2][1..] == [] && [3, 5][1..] == [5] && [5][1..] == [] && [8, 11][1..] == [11] && [11][1..] == [];
    assert Order(t, [], {}) == [] && Order(t, [], {3}) == [];
    assert Order(t, [2], {}) == [Direct(2)] + Order(t, [], {});
    assert Order(t, [5], {3}) == [Direct(5)] + Order(t, [], {3});
    assert Order(t, [11], {}) == [Direct(11)] + Order(t, [], {});
    assert Order(t, [8, 11], {}) == [Direct(8)] + Order(t, [11], {});
    assert Order(t, [6, 8, 9, 11], {}) == [Direct(6), Aside(9)] + Order(t, [8, 11], {});
  }

  lemma SampleMemberShape(kind: string, defn: string, cfg: Config)
    requires WellFormed(Sample(kind, defn))
    ensures HasTag(Sample(kind, defn), 11, MemberDef) && MemberShape(Sample(kind, defn), cfg, 2, 11)
  {
    hide WellFormed, Inert, AllEnclosed, MemberFirst, NameOf, Documented, Sample;
    SampleParts(kind, defn);
    SampleTags(kind, defn, 11, MemberDef);
    SampleMember(kind, defn);
    SampleEnclosed(kind, defn);
    PlainIsInert(Code, "bar");
  }

  lemma SampleSectionShape(kind: string, defn: string, cfg: Config)
    requires WellFormed(Sample(kind, defn))
    ensures SectionShape(Sample(kind, defn), cfg, 2, 5)
  {
    hide WellFormed, Inert, AllEnclosed, MemberShape, Order, Sample;
    SampleParts(kind, defn);
    var t := Sample(kind, defn);
    SampleOrders(kind, defn);
    SampleMemberShape(kind, defn, cfg);
    SampleEnclosed(kind, defn);
    PlainIsInert(Block, HeaderComment("Handlers"));
    SampleTags(kind, defn, 6, Header);
    assert SectionVisitShape(t, cfg, 2, Direct(6));
    assert Quiet(t, cfg, 8);
    assert SectionVisitShape(t, cfg, 2, Aside(9));
  }

  lemma SampleClassShape(kind: string, defn: string, cfg: Config)
    requires WellFormed(Sample(kind, defn))
    ensures ClassShape(Sample(kind, defn), cfg, 2)
  {
    hide WellFormed, AllEnclosed, SectionShape, Order, ClassFirst, Sample;
    SampleParts(kind, defn);
    SampleFirst(kind, defn);
    SampleOrders(kind, defn);
    SampleSectionShape(kind, defn, cfg);
    SampleTags(kind, defn, 5, SectionDef);
  }

  lemma SampleScopes(kind: string, defn: string)
    requires WellFormed(Sample(kind, defn))
    ensures ScopesPlain(Sample(kind, defn))
  {
    hide WellFormed, Inert, HasTag, Sample;
    SampleParts(kind, defn);
    PlainIsInert(Code, "Foo");
    forall m | 0 <= m < 18 && (HasTag(Sample(kind, defn), m, CompoundName) || HasTag(Sample(kind, defn), m, InnerNamespace))
      ensures m == 3
    {
      SampleTags(kind, defn, m, CompoundName);
      SampleTags(kind, defn, m, InnerNamespace);
    }
  }

  /** The shape is that of a document with a documented member, a section, and a header with its
      description, whatever the kind of the section and the definition of the member. */
  lemma SampleHasShape(kind: string, defn: string, cfg: Config)
    ensures Renderable(Sample(kind, defn), cfg) && DoxygenShape(Sample(kind, defn), cfg, 2)
    ensures Up(Sample(kind, defn), 2) == 1
  {
    hide WellFormed, ClassShape, ScopesPlain, Renderable, Quiet, Order, DocumentElement, HasTag, Sample;
    SampleParts(kind, defn);
    SampleWellFormed(kind, defn);
    SampleRenders(kind, defn, cfg);
    SampleClassShape(kind, defn, cfg);
    SampleScopes(kind, defn);
    SampleOrders(kind, defn);
    forall m | 0 <= m < 18
      ensures HasTag(Sample(kind, defn), m, CompoundDef) <==> m == 2
    {
      SampleTags(kind, defn, m, CompoundDef);
    }
  }

  // ---------- A definition with a quote ----------

  lemma {:induction false} GatheredHas(t: Tree, cfg: Config, p: nat, vs: seq<Visit>, k: nat, d: Directive)
    requires Renderable(t, cfg) && p < |t.nodes| && Below(t, p, vs)
    requires Direct(k) in vs && k < |t.nodes| && d in DirectivesOf(t, cfg, k)
    ensures d in Gathered(t, cfg, p, vs)
    decreases |vs|
  {
    hide DirectivesOf, Renders;
    assert vs == [vs[0]] + vs[1..];
    assert forall w :: w in vs[1..] ==> w in vs;
    if vs[0] != Direct(k) {
      GatheredHas(t, cfg, p, vs[1..], k, d);
    }
  }

  /** The directive of the sample's member is one of those of the document. */
  lemma SampleDirective(kind: string, defn: string, cfg: Config)
    requires Renderable(Sample(kind, defn), cfg) && Selected(Some(kind))
    ensures HasTag(Sample(kind, defn), 11, MemberDef) && Documented(Sample(kind, defn), 11)
    ensures MemberDirective(Sample(kind, defn), cfg, 11) in DirectivesOf(Sample(kind, defn), cfg, 1)
    ensures MemberDirective(Sample(kind, defn), cfg, 11).definition == if cfg.includeDefinition then defn else ""
  {
    hide Renders, DirectivesOf, Gathered, Documented, Order, WellFormed, ClassFirst, Sample;
    SampleParts(kind, defn);
    var t := Sample(kind, defn);
    SampleMember(kind, defn);
    SampleOrders(kind, defn);
    SampleFirst(kind, defn);
    SampleTags(kind, defn, 11, MemberDef);
    SampleTags(kind, defn, 5, SectionDef);
    SampleTags(kind, defn, 2, CompoundDef);
    var d := MemberDirective(t, cfg, 11);
    MemberDirectives(t, cfg, 11);
    assert d in DirectivesOf(t, cfg, 11);
    SectionDirectives(t, cfg, 5);
    assert Direct(11) in [Direct(6), Aside(9), Direct(8), Direct(11)];
    GatheredHas(t, cfg, 5, Order(t, t.kids[5], {}), 11, d);
    ClassDirectives(t, cfg, 2);
    assert Direct(5) in [Direct(5)];
    GatheredHas(t, cfg, 2, Order(t, t.kids[2], ClassFirst(t, 2).Values), 5, d);
    OtherDirectives(t, cfg, 1);
    assert Direct(2) in [Direct(2)];
    GatheredHas(t, cfg, 1, Order(t, t.kids[1], {}), 2, d);
  }

  /** A declaration with an attribute string. */
  const QUOTED: string := "void Foo::bar() __attribute__((alias(\"baz\")))"

  lemma QuotedEnds()
    ensures Tokens(Literal, QUOTED) != LiteralText(QUOTED)
  {
    hide Tokens, After;
    var front, rest := "void Foo::bar() __attribute__((alias(", "baz\")))";
    assert QUOTED == front + ("\"" + rest);
    PlainIsInert(Literal, front);
    QuoteReads();
    AfterConcat(Literal, "\"", rest);
    AfterConcat(Literal, front, "\"" + rest);
    assert Tokens(Literal, QUOTED)[|front|] == Close;
    assert LiteralText(QUOTED)[|front|] == InLiteral('"');
  }

  /** A quote in a definition breaks the file: the document is of Doxygen's shape and no exception
      is raised, but the text of the member does not end in code after two literals, and the text
      of the whole document is not read back as its directives. */
  lemma QuotedDefinitionBreaks(cfg: Config, basename: string)
    requires cfg.includeDefinition && FillKeepsQuoting(cfg) && Inert(Code, basename)
    ensures var t := Sample("public-func", QUOTED);
            && Renderable(t, cfg) && DoxygenShape(t, cfg, 2)
            && !(After(Code, Concat(Emit(t, cfg, 11))) == Code && Opens(Tokens(Code, Concat(Emit(t, cfg, 11)))) == 2)
            && Tokens(Code, Concat(Collected(t, cfg, basename)))
               != CodeText("File:" + basename) + WrittenAll(DirectivesOf(t, cfg, 1))
  {
    hide Renderable, DoxygenShape, Emit, Tokens, After, DirectivesOf, MemberDirective, Documented, CodeText, WrittenAll,
      FillKeepsQuoting, Opens, MemberShape, Concat;
    var t := Sample("public-func", QUOTED);
    SampleWellFormed("public-func", QUOTED);
    SampleHasShape("public-func", QUOTED, cfg);
    SampleDirective("public-func", QUOTED, cfg);
    SampleMemberShape("public-func", QUOTED, cfg);
    QuotedEnds();
    assert !Fits(MemberDirective(t, cfg, 11));
    MemberBalancedIff(t, cfg, 2, 11);
    GeneratedTextIsBalanced(t, cfg, 2, basename);
  }

  // ---------- The directives of the sample ----------

  lemma OneKid(t: Tree, cfg: Config, p: nat, k: nat)
    requires Renderable(t, cfg) && p < |t.nodes| && t.kids[p] == [k] && !HasTag(t, k, Header)
    ensures k < |t.nodes| && EmitKids(t, cfg, p) == Emit(t, cfg, k)
  {
    hide Renders, Emit;
    KidsBelow(t, p);
    EmitKidsIs(t, cfg, p);
    assert [k][1..] == [];
    assert Order(t, [k], {}) == [Direct(k)] + Order(t, [], {});
    EmitVisitsCons(t, cfg, p, Direct(k), []);
    NothingLeft(t, cfg, p);
  }

  lemma TwoKids(t: Tree, cfg: Config, p: nat, k: nat, l: nat)
    requires Renderable(t, cfg) && p < |t.nodes| && t.kids[p] == [k, l] && !HasTag(t, k, Header) && !HasTag(t, l, Header)
    ensures k < |t.nodes| && l < |t.nodes| && EmitKids(t, cfg, p) == Emit(t, cfg, k) + Emit(t, cfg, l)
  {
    hide Renders, Emit;
    KidsBelow(t, p);
    EmitKidsIs(t, cfg, p);
    assert [k, l][1..] == [l] && [l][1..] == [];
    assert Order(t, [l], {}) == [Direct(l)] + Order(t, [], {});
    assert Order(t, [k, l], {}) == [Direct(k)] + Order(t, [l], {});
    EmitVisitsCons(t, cfg, p, Direct(k), [Direct(l)]);
    EmitVisitsCons(t, cfg, p, Direct(l), []);
    NothingLeft(t, cfg, p);
  }

  lemma NoKids(t: Tree, cfg: Config, p: nat)
    requires Renderable(t, cfg) && p < |t.nodes| && t.kids[p] == []
    ensures EmitKids(t, cfg, p) == []
  {
    hide Renders, Emit;
    EmitKidsIs(t, cfg, p);
    NothingLeft(t, cfg, p);
  }

  lemma EmitTextIs(t: Tree, cfg: Config, n: nat, data: string)
    requires Renderable(t, cfg) && n < |t.nodes| && t.nodes[n] == Text(data)
    ensures Emit(t, cfg, n) == EmitText(cfg, data)
  {
  }

  lemma SampleBody(kind: string, defn: string, cfg: Config)
    requires Renderable(Sample(kind, defn), cfg) && cfg.fill("Does it.") == "Does it."
    ensures 18 == |Sample(kind, defn).nodes| && Emit(Sample(kind, defn), cfg, 16) == ["Does it.", "\n"]
  {
    hide Sample, Renderable, Renders, Emit, EmitKids, EmitVisits, Escaped;
    var t := Sample(kind, defn);
    SampleParts(kind, defn);
    SampleTags(kind, defn, 16, BriefDescription);
    SampleTags(kind, defn, 17, Header);
    EmitTextIs(t, cfg, 17, "Does it.");
    EscapedIsItself("Does it.");
    assert !IsSpace("Does it."[0]);
    OneKid(t, cfg, 16, 17);
    EmitIs(t, cfg, 16, BriefDescription);
  }

  lemma SampleMemberVisits(kind: string, defn: string)
    ensures Order(Sample(kind, defn), [12, 14, 16], {12, 14}) == [Direct(16)]
  {
    hide Sample;
    var t := Sample(kind, defn);
    assert [12, 14, 16][1..] == [14, 16] && [14, 16][1..] == [16] && [16][1..] == [];
    assert Order(t, [], {12, 14}) == [] && Order(t, [16], {12, 14}) == [Direct(16)];
  }

  lemma SampleMemberDirective(kind: string, defn: string, cfg: Config)
    requires Renderable(Sample(kind, defn), cfg) && cfg.fill("Does it.") == "Does it." && cfg.includeDefinition
    ensures HasTag(Sample(kind, defn), 11, MemberDef) && Documented(Sample(kind, defn), 11)
    ensures MemberDirective(Sample(kind, defn), cfg, 11) == Directive("Foo::bar", defn, "Does it.\n")
  {
    hide Sample, Renderable, Renders, Emit, EmitKids, EmitVisits, Documented, MemberFirst, NameOf, Scope, DefinitionOf, Order;
    var t := Sample(kind, defn);
    SampleParts(kind, defn);
    SampleWellFormed(kind, defn);
    SampleMember(kind, defn);
    SampleTags(kind, defn, 11, MemberDef);
    SampleMemberVisits(kind, defn);
    SampleBody(kind, defn, cfg);
    MemberBelow(t, 11);
    assert [Direct(16)] + [] == [Direct(16)];
    EmitVisitsCons(t, cfg, 11, Direct(16), []);
    NothingLeft(t, cfg, 11);
    VisitIsEmit(t, cfg, 11, Direct(16));
    BriefText();
  }

  lemma BriefText()
    ensures Concat(["Does it.", "\n"] + []) == "Does it.\n"
  {
    assert ["Does it.", "\n"] + [] == ["Does it."] + ["\n"];
    ConcatAppend(["Does it."], ["\n"]);
    ConcatOne("Does it.");
    ConcatOne("\n");
  }

  lemma SampleClassDirective(kind: string, defn: string, cfg: Config)
    requires Renderable(Sample(kind, defn), cfg)
    ensures 18 == |Sample(kind, defn).nodes| && ClassDirective(Sample(kind, defn), cfg, 2) == Directive("Foo", "", "")
  {
    hide Sample, Renderable, Renders, Emit, EmitKids, EmitVisits, ClassFirst;
    var t := Sample(kind, defn);
    SampleParts(kind, defn);
    SampleWellFormed(kind, defn);
    SampleFirst(kind, defn);
    var first := ClassFirst(t, 2);
    assert OTHER_NAMES[1..] == [DetailedDescription, Includes] && [DetailedDescription, Includes][1..] == [Includes];
    assert [Includes][1..] == [];
    assert Named(first, []) == [] && Named(first, [Includes]) == [] && Named(first, [DetailedDescription, Includes]) == [];
    assert Named(first, OTHER_NAMES) == [];
    OthersBelow(t, 2);
    NothingLeft(t, cfg, 2);
    assert FirstData(t, t.kids[3]) == Some("Foo");
  }

  /** The directives of the sample, letter by letter: those of the class and the function, the
      latter if the section is one of the written kinds. */
  lemma SampleSays(kind: string, defn: string, cfg: Config)
    requires cfg.includeDefinition && cfg.fill("Does it.") == "Does it."
    ensures Renderable(Sample(kind, defn), cfg) && 18 == |Sample(kind, defn).nodes|
    ensures DirectivesOf(Sample(kind, defn), cfg, 1)
         == [Directive("Foo", "", "")]
            + if kind in {"public-func", "func", "user-defined", ""} then [Directive("Foo::bar", defn, "Does it.\n")] else []
  {
    hide Sample, Renderable, Renders, DirectivesOf, Gathered, Documented, Order, MemberDirective, ClassDirective;
    var t := Sample(kind, defn);
    SampleRenders(kind, defn, cfg);
    SampleParts(kind, defn);
    SampleWellFormed(kind, defn);
    SampleOrders(kind, defn);
    SampleFirst(kind, defn);
    SampleTags(kind, defn, 2, CompoundDef);
    SampleClassDirective(kind, defn, cfg);
    SampleSection(kind, defn, cfg);
    ClassDirectives(t, cfg, 2);
    OneGathered(t, cfg, 2, 5);
    OtherDirectives(t, cfg, 1);
    OneGathered(t, cfg, 1, 2);
  }

  lemma OneGathered(t: Tree, cfg: Config, p: nat, k: nat)
    requires Renderable(t, cfg) && p < |t.nodes| && Below(t, p, [Direct(k)]) && k < |t.nodes|
    ensures Gathered(t, cfg, p, [Direct(k)]) == DirectivesOf(t, cfg, k)
  {
    hide DirectivesOf, Renders;
    assert [Direct(k)][1..] == [];
    assert Gathered(t, cfg, p, []) == [];
  }

  lemma SampleSection(kind: string, defn: string, cfg: Config)
    requires Renderable(Sample(kind, defn), cfg) && cfg.includeDefinition && cfg.fill("Does it.") == "Does it."
    ensures 18 == |Sample(kind, defn).nodes|
    ensures DirectivesOf(Sample(kind, defn), cfg, 5)
         == if kind in {"public-func", "func", "user-defined", ""} then [Directive("Foo::bar", defn, "Does it.\n")] else []
  {
    hide Sample, Renderable, Renders, DirectivesOf, Documented, Order, MemberDirective, Gathered;
    var t := Sample(kind, defn);
    SampleParts(kind, defn);
    SampleWellFormed(kind, defn);
    SampleOrders(kind, defn);
    SampleTags(kind, defn, 5, SectionDef);
    SampleTags(kind, defn, 6, Header);
    SampleMemberDirective(kind, defn, cfg);
    MemberDirectives(t, cfg, 11);
    HeaderDirectives(t, cfg, 6);
    TextDirectives(t, cfg, 8);
    SectionDirectives(t, cfg, 5);
    if Selected(Some(kind)) {
      assert [Direct(6), Aside(9), Direct(8), Direct(11)] == [Direct(6)] + ([Aside(9)] + ([Direct(8)] + [Direct(11)]));
      GatheredCons(t, cfg, 5, Direct(6), [Aside(9)] + ([Direct(8)] + [Direct(11)]));
      GatheredCons(t, cfg, 5, Aside(9), [Direct(8)] + [Direct(11)]);
      GatheredCons(t, cfg, 5, Direct(8), [Direct(11)]);
      OneGathered(t, cfg, 5, 11);
    }
  }

  lemma GatheredCons(t: Tree, cfg: Config, p: nat, v: Visit, vs: seq<Visit>)
    requires Renderable(t, cfg) && p < |t.nodes| && Below(t, p, [v] + vs)
    ensures Below(t, p, vs) && v.id < |t.nodes|
    ensures Gathered(t, cfg, p, [v] + vs) == (if v.Direct? then DirectivesOf(t, cfg, v.id) else []) + Gathered(t, cfg, p, vs)
  {
    hide DirectivesOf, Renders;
    assert ([v] + vs)[0] == v && ([v] + vs)[1..] == vs && v in [v] + vs;
    assert forall w :: w in vs ==> w in [v] + vs;
  }

  lemma TextDirectives(t: Tree, cfg: Config, k: nat)
    requires Renderable(t, cfg) && k < |t.nodes| && t.nodes[k].Text?
    ensures DirectivesOf(t, cfg, k) == []
  {
  }
}
