/** Documents of Doxygen's shape, and the main theorem about the text written for them: it is
    read back as their directives, each with its own docstring, if and only if every definition
    fits into the docstring it is written into. */
module InterfaceBalance {
  import opened Wrappers
  import opened SwigLexer
  import opened Escape
  import opened DoxygenTree
  import opened DoxygenEmitter
  import opened DocstringBalance
  import opened Directives

  // ---------- The shape ----------

  /** Nodes that may stand between the documented parts: they write nothing. */
  ghost predicate Quiet(t: Tree, cfg: Config, n: nat)
    requires WellFormed(t) && n < |t.nodes|
    decreases Size(t, n)
  {
    match t.nodes[n]
    case Document => false
    case Comment(_) => true
    case Text(data) => Blank(data)
    case Element(tag, _) =>
      || Ignored(cfg, tag)
      || (tag.Other? && assert Siblings(t, n, t.kids[n]);
          forall i :: 0 <= i < |t.kids[n]| ==> Quiet(t, cfg, t.kids[n][i]))
  }

  /** A member that is documented: its name is plain code, and all children but name and
      definition are documentation. Nothing is asked of the definition. */
  ghost predicate MemberShape(t: Tree, cfg: Config, c: nat, k: nat)
    requires WellFormed(t) && k < |t.nodes|
  {
    && Up(t, Up(t, k)) == c
    && (Documented(t, k) ==>
          && (NameOf(t, k).Some? ==> Inert(Code, NameOf(t, k).value))
          && forall m :: m in t.kids[k] && m !in MemberFirst(t, k).Values ==>
               m < t.end[m] <= |t.nodes| && AllEnclosed(t, Literal, m, t.end[m]))
  }

  ghost predicate SectionVisitShape(t: Tree, cfg: Config, c: nat, v: Visit)
    requires WellFormed(t) && v.id < |t.nodes|
  {
    match v
    case Direct(k) =>
      || Quiet(t, cfg, k)
      || (HasTag(t, k, MemberDef) && MemberShape(t, cfg, c, k))
      || (HasTag(t, k, Header)
          && (FirstData(t, t.kids[k]).Some? ==> Inert(Block, HeaderComment(FirstData(t, t.kids[k]).value))))
    case Aside(d) => AllEnclosed(t, Block, d + 1, t.end[d])
  }

  /** What stands between the comment markers of a header. */
  function HeaderComment(data: string): string {
    "\n " + data + " \n"
  }

  ghost predicate SectionShape(t: Tree, cfg: Config, c: nat, s: nat)
    requires WellFormed(t) && s < |t.nodes|
  {
    Selected(Attr(t, s, "kind")) ==>
      forall v :: v in Order(t, t.kids[s], {}) ==> v.id < |t.nodes| && SectionVisitShape(t, cfg, c, v)
  }

  ghost predicate ClassShape(t: Tree, cfg: Config, c: nat)
    requires WellFormed(t) && c < |t.nodes|
  {
    var first := ClassFirst(t, c);
    && CompoundName in first
    && (forall g :: g in first && g != CompoundName ==>
          first[g] < |t.nodes| && t.end[first[g]] <= |t.nodes| && AllEnclosed(t, Literal, first[g], t.end[first[g]]))
    && (forall v :: v in Order(t, t.kids[c], first.Values) ==>
          && v.Direct? && v.id < |t.nodes|
          && (Quiet(t, cfg, v.id) || (HasTag(t, v.id, SectionDef) && SectionShape(t, cfg, c, v.id))))
  }

  ghost predicate CompoundShape(t: Tree, cfg: Config, c: nat)
    requires WellFormed(t) && c < |t.nodes|
  {
    && (IsClass(Attr(t, c, "kind")) && Attr(t, c, "prot") == Some("public") ==> ClassShape(t, cfg, c))
    && (IsFile(Attr(t, c, "kind")) ==>
          forall s :: s in Find(t, c, SectionDef) ==> s < |t.nodes| && SectionShape(t, cfg, c, s))
  }

  predicate ScopePlain(scope: Option<string>) {
    scope.Some? ==> Inert(Code, scope.value)
  }

  /** The names written in front of a docstring are plain code. */
  ghost predicate ScopesPlain(t: Tree)
    requires WellFormed(t)
  {
    forall m :: 0 <= m < |t.nodes| && (HasTag(t, m, CompoundName) || HasTag(t, m, InnerNamespace)) ==>
      ScopePlain(FirstData(t, t.kids[m]))
  }

  /** One <compounddef>, right below the root; everything else below the root writes nothing. */
  ghost predicate DoxygenShape(t: Tree, cfg: Config, c: nat)
    requires WellFormed(t)
  {
    && HasTag(t, c, CompoundDef)
    && (forall m :: 0 <= m < |t.nodes| && HasTag(t, m, CompoundDef) ==> m == c)
    && DocumentElement(t, 0) == Some(Up(t, c))
    && c in t.kids[Up(t, c)]
    && t.nodes[Up(t, c)].Element? && t.nodes[Up(t, c)].tag.Other?
    && (forall v :: v in Order(t, t.kids[Up(t, c)], {}) ==>
          v.Direct? && v.id < |t.nodes| && (v.id == c || Quiet(t, cfg, v.id)))
    && CompoundShape(t, cfg, c)
    && ScopesPlain(t)
  }

  // ---------- The directives of a document ----------

  const OTHER_NAMES: seq<Tag> := [BriefDescription, DetailedDescription, Includes]

  lemma ClassNames()
    ensures CLASS_NAMES == [CompoundName] + OTHER_NAMES && CLASS_NAMES[1..] == OTHER_NAMES
  {
  }

  lemma OthersBelow(t: Tree, n: nat)
    requires WellFormed(t) && n < |t.nodes|
    ensures Below(t, n, Named(ClassFirst(t, n), OTHER_NAMES))
  {
    hide SpecificNodes;
    ClassNames();
    ClassBelow(t, n);
    assert forall v :: v in Named(ClassFirst(t, n), CLASS_NAMES[1..]) ==> v in Named(ClassFirst(t, n), CLASS_NAMES);
  }

  lemma MemberBelow(t: Tree, n: nat)
    requires WellFormed(t) && n < |t.nodes|
    ensures Below(t, n, Order(t, t.kids[n], MemberFirst(t, n).Values))
  {
    MemberSkips(t, n);
  }

  function MemberName(scope: Option<string>, name: string): string {
    if scope.Some? then scope.value + "::" + name else name
  }

  /** What a documented member documents, and with which text. */
  ghost function MemberDirective(t: Tree, cfg: Config, n: nat): Directive
    requires Renderable(t, cfg) && HasTag(t, n, MemberDef) && Documented(t, n)
  {
    MemberFacts(t, cfg, n);
    MemberBelow(t, n);
    Directive(MemberName(Scope(t, n), NameOf(t, n).value), DefinitionOf(t, cfg, n).value,
              Concat(EmitVisits(t, cfg, n, Order(t, t.kids[n], MemberFirst(t, n).Values))))
  }

  function ClassName(t: Tree, n: nat): string
    requires n < |t.kids|
  {
    var first := ClassFirst(t, n);
    if CompoundName in first && first[CompoundName] < |t.kids| && FirstData(t, t.kids[first[CompoundName]]).Some?
    then FirstData(t, t.kids[first[CompoundName]]).value else ""
  }

  ghost function ClassDirective(t: Tree, cfg: Config, n: nat): Directive
    requires Renderable(t, cfg) && n < |t.nodes|
  {
    OthersBelow(t, n);
    Directive(ClassName(t, n), "", Concat(EmitVisits(t, cfg, n, Named(ClassFirst(t, n), OTHER_NAMES))))
  }

  /** The directives of the subtree of `n`, in the order they are written: one for a public
      class, and one for each member that passes the filters in a selected section. */
  ghost function DirectivesOf(t: Tree, cfg: Config, n: nat): seq<Directive>
    requires Renderable(t, cfg) && n < |t.nodes|
    decreases Size(t, n), 1, 0
  {
    KidsBelow(t, n);
    OrderBelow(t, n, t.kids[n], {});
    match t.nodes[n]
    case Element(tag, _) =>
      (match tag
       case MemberDef => if Documented(t, n) then [MemberDirective(t, cfg, n)] else []
       case SectionDef => if Selected(Attr(t, n, "kind")) then Gathered(t, cfg, n, Order(t, t.kids[n], {})) else []
       case CompoundDef =>
         ClassBelow(t, n);
         SectionsBelow(t, n);
         if IsClass(Attr(t, n, "kind")) then
           if Attr(t, n, "prot") == Some("public")
           then [ClassDirective(t, cfg, n)] + Gathered(t, cfg, n, Order(t, t.kids[n], ClassFirst(t, n).Values)) else []
         else if IsFile(Attr(t, n, "kind")) then Gathered(t, cfg, n, Directs(Find(t, n, SectionDef)))
         else []
       case Other(_) => Gathered(t, cfg, n, Order(t, t.kids[n], {}))
       case _ => [])
    case _ => []
  }

  ghost function Gathered(t: Tree, cfg: Config, p: nat, vs: seq<Visit>): seq<Directive>
    requires Renderable(t, cfg) && p < |t.nodes| && Below(t, p, vs)
    decreases Size(t, p), 0, |vs|
  {
    if vs == [] then []
    else
      assert vs[0] in vs;
      (match vs[0] case Direct(k) => DirectivesOf(t, cfg, k) case Aside(_) => []) + Gathered(t, cfg, p, vs[1..])
  }

  lemma OtherDirectives(t: Tree, cfg: Config, n: nat)
    requires Renderable(t, cfg) && n < |t.nodes| && t.nodes[n].Element? && t.nodes[n].tag.Other?
    ensures Below(t, n, Order(t, t.kids[n], {}))
    ensures DirectivesOf(t, cfg, n) == Gathered(t, cfg, n, Order(t, t.kids[n], {}))
  {
    hide Siblings, Gathered, Order, Renders;
    KidsBelow(t, n);
    OrderBelow(t, n, t.kids[n], {});
  }

  lemma SectionDirectives(t: Tree, cfg: Config, n: nat)
    requires Renderable(t, cfg) && HasTag(t, n, SectionDef)
    ensures Below(t, n, Order(t, t.kids[n], {}))
    ensures DirectivesOf(t, cfg, n)
         == if Selected(Attr(t, n, "kind")) then Gathered(t, cfg, n, Order(t, t.kids[n], {})) else []
  {
    hide Siblings, Gathered, Order, Renders;
    KidsBelow(t, n);
    OrderBelow(t, n, t.kids[n], {});
  }

  lemma MemberDirectives(t: Tree, cfg: Config, n: nat)
    requires Renderable(t, cfg) && HasTag(t, n, MemberDef)
    ensures DirectivesOf(t, cfg, n) == if Documented(t, n) then [MemberDirective(t, cfg, n)] else []
  {
    hide Siblings, Gathered, Order, Documented, Renders, MemberDirective;
  }

  lemma ClassDirectives(t: Tree, cfg: Config, n: nat)
    requires Renderable(t, cfg) && HasTag(t, n, CompoundDef) && IsClass(Attr(t, n, "kind"))
    ensures Below(t, n, Order(t, t.kids[n], ClassFirst(t, n).Values))
    ensures DirectivesOf(t, cfg, n)
         == if Attr(t, n, "prot") == Some("public")
            then [ClassDirective(t, cfg, n)] + Gathered(t, cfg, n, Order(t, t.kids[n], ClassFirst(t, n).Values)) else []
  {
    hide Siblings, Gathered, Order, SpecificNodes, Renders, ClassDirective;
    ClassBelow(t, n);
  }

  lemma FileDirectives(t: Tree, cfg: Config, n: nat)
    requires Renderable(t, cfg) && HasTag(t, n, CompoundDef) && !IsClass(Attr(t, n, "kind"))
    ensures Below(t, n, Directs(Find(t, n, SectionDef)))
    ensures DirectivesOf(t, cfg, n)
         == if IsFile(Attr(t, n, "kind")) then Gathered(t, cfg, n, Directs(Find(t, n, SectionDef))) else []
  {
    hide Siblings, Gathered, Order, Search, Directs, Renders;
    SectionsBelow(t, n);
  }

  // ---------- Reading comments ----------

  lemma CommentMarks()
    ensures After(Code, "\n/*") == Block && Tokens(Code, "\n/*") == []
    ensures After(Block, "*/\n") == Code && Tokens(Block, "*/\n") == []
  {
    assert "\n/*"[1..] == "/*" && "/*"[1..] == "*" && "*"[1..] == "";
    assert Tokens(Block, "*") == [] && Tokens(Slash, "*") == [] && Tokens(Code, "/*") == [];
    assert "*/\n"[1..] == "/\n" && "/\n"[1..] == "\n" && "\n"[1..] == "";
    assert Tokens(Code, "\n") == [] && Tokens(Star, "/\n") == [];
  }

  lemma HeaderReads(data: string)
    requires Inert(Block, HeaderComment(data))
    ensures Reads(Code, ["\n/*\n " + data + " \n*/\n"], Code, [])
  {
    hide After, Tokens;
    CommentMarks();
    AfterConcat(Code, "\n/*", HeaderComment(data));
    AfterConcat(Code, "\n/*" + HeaderComment(data), "*/\n");
    assert "\n/*\n " + data + " \n*/\n" == "\n/*" + HeaderComment(data) + "*/\n";
    ReadsOne(Code, "\n/*\n " + data + " \n*/\n");
  }

  lemma AsideReads(body: seq<string>)
    requires AllInert(Block, body)
    ensures Reads(Code, ["\n/*"] + body + ["\n*/\n"], Code, [])
  {
    hide After, Tokens, Reads;
    CommentMarks();
    ReadsOne(Code, "\n/*");
    InertReads(Block, body);
    NewlineIsInert(Block);
    AfterConcat(Block, "\n", "*/\n");
    assert "\n" + "*/\n" == "\n*/\n";
    ReadsOne(Block, "\n*/\n");
    ReadsConcat(Code, ["\n/*"], Block, [], body, Block, []);
    ReadsConcat(Code, ["\n/*"] + body, Block, [], ["\n*/\n"], Code, []);
  }

  // ---------- Reading what the handlers write ----------

  lemma {:induction false} QuietEmits(t: Tree, cfg: Config, n: nat)
    requires Renderable(t, cfg) && n < |t.nodes| && Quiet(t, cfg, n)
    ensures Emit(t, cfg, n) == [] && DirectivesOf(t, cfg, n) == []
    decreases Size(t, n), 1, 0
  {
    match t.nodes[n]
    case Text(data) =>
      BlankEscaped(data);
      EscapedIsCharMap(data);
    case Element(tag, _) =>
      if !Ignored(cfg, tag) {
        KidsBelow(t, n);
        OrderBelow(t, n, t.kids[n], {});
        forall k | k in t.kids[n]
          ensures k < |t.nodes| && Quiet(t, cfg, k) && !HasTag(t, k, Header)
        {
        }
        OrderDirect(t, t.kids[n], {});
        EmitOtherIs(t, cfg, n);
        EmitKidsIs(t, cfg, n);
        QuietVisits(t, cfg, n, Order(t, t.kids[n], {}));
      }
    case Comment(_) =>
  }

  lemma {:induction false} QuietVisits(t: Tree, cfg: Config, p: nat, vs: seq<Visit>)
    requires Renderable(t, cfg) && p < |t.nodes| && Below(t, p, vs)
    requires forall v :: v in vs ==> v.Direct? && Quiet(t, cfg, v.id)
    ensures EmitVisits(t, cfg, p, vs) == [] && Gathered(t, cfg, p, vs) == []
    decreases Size(t, p), 0, |vs|
  {
    if vs != [] {
      assert vs[0] in vs && vs == [vs[0]] + vs[1..];
      assert forall w :: w in vs[1..] ==> w in vs;
      EmitVisitsCons(t, cfg, p, vs[0], vs[1..]);
      QuietEmits(t, cfg, vs[0].id);
      QuietVisits(t, cfg, p, vs[1..]);
    }
  }

  /** The pieces of `v` are read as its directives, if their definitions fit. */
  ghost predicate VisitJudged(t: Tree, cfg: Config, p: nat, v: Visit)
    requires Renderable(t, cfg) && p < v.id < |t.nodes| && v.id < t.end[v.id] <= t.end[p]
  {
    Judged(EmitVisit(t, cfg, p, v), if v.Direct? then DirectivesOf(t, cfg, v.id) else [])
  }

  lemma {:induction false} VisitsJudged(t: Tree, cfg: Config, p: nat, vs: seq<Visit>)
    requires Renderable(t, cfg) && p < |t.nodes| && Below(t, p, vs)
    requires forall v :: v in vs ==> VisitJudged(t, cfg, p, v)
    ensures Judged(EmitVisits(t, cfg, p, vs), Gathered(t, cfg, p, vs))
    decreases |vs|
  {
    hide Judged, Emit, EmitVisit, Renders, DirectivesOf;
    if vs == [] {
      NothingJudged();
    } else {
      var v := vs[0];
      assert v in vs && vs == [v] + vs[1..];
      assert forall w :: w in vs[1..] ==> w in vs;
      EmitVisitsCons(t, cfg, p, v, vs[1..]);
      VisitsJudged(t, cfg, p, vs[1..]);
      assert VisitJudged(t, cfg, p, v);
      JudgedConcat(EmitVisit(t, cfg, p, v), if v.Direct? then DirectivesOf(t, cfg, v.id) else [],
                   EmitVisits(t, cfg, p, vs[1..]), Gathered(t, cfg, p, vs[1..]));
    }
  }

  lemma NothingJudged()
    ensures Judged([], [])
  {
    ReadsNothing(Code);
    JudgedNone([]);
  }

  /** With a single compound, the one that decides how a member is named is the one it is in. */
  lemma CompoundOfMember(t: Tree, cfg: Config, c: nat, k: nat)
    requires Renderable(t, cfg) && DoxygenShape(t, cfg, c) && HasTag(t, k, MemberDef) && Up(t, Up(t, k)) == c
    ensures CompoundKind(t, k) == Attr(t, c, "kind")
  {
    CompoundFacts(t, cfg, k);
    var root := Up(t, c);
    KidsBelow(t, root);
    SearchSound(t, t.kids, root, t.kids[root], CompoundDef, root + 1);
    var found := Compounds(t, k);
    assert found[0] in found;
    assert FoundIn(t, found[0], CompoundDef, root + 1, t.end[root]);
  }

  lemma ScopeIsPlain(t: Tree, cfg: Config, k: nat)
    requires Renderable(t, cfg) && ScopesPlain(t) && k < |t.nodes|
    ensures ScopePlain(Scope(t, k))
  {
    var anc := Up(t, Up(t, k));
    KidsBelow(t, anc);
    SearchSound(t, t.kids, anc, t.kids[anc], CompoundName, anc + 1);
    SearchSound(t, t.kids, anc, t.kids[anc], InnerNamespace, anc + 1);
    var ns := ScopeNodes(t, k);
    if ns != [] {
      assert ns[0] in ns;
      assert FoundIn(t, ns[0], CompoundName, anc + 1, t.end[anc]) || FoundIn(t, ns[0], InnerNamespace, anc + 1, t.end[anc]);
    }
  }

  lemma MemberBodyInert(t: Tree, cfg: Config, c: nat, k: nat)
    requires Renderable(t, cfg) && FillKeepsQuoting(cfg) && HasTag(t, k, MemberDef)
    requires MemberShape(t, cfg, c, k) && Documented(t, k)
    ensures Below(t, k, Order(t, t.kids[k], MemberFirst(t, k).Values))
    ensures Inert(Literal, Concat(EmitVisits(t, cfg, k, Order(t, t.kids[k], MemberFirst(t, k).Values))))
  {
    hide Renders, Emit, EmitVisits, SpecificNodes, Order, Siblings, FillKeepsQuoting, AllInert, Inert;
    MemberSkips(t, k);
    var skip := MemberFirst(t, k).Values;
    forall m | m in t.kids[k] && m !in skip
      ensures !HasTag(t, m, Header)
    {
      assert Enclosed(t, Literal, m);
    }
    OrderDirect(t, t.kids[k], skip);
    VisitsInert(t, cfg, Literal, k, Order(t, t.kids[k], skip));
    InertReads(Literal, EmitVisits(t, cfg, k, Order(t, t.kids[k], skip)));
  }

  lemma MemberPieces(t: Tree, cfg: Config, k: nat)
    requires Renderable(t, cfg) && HasTag(t, k, MemberDef) && Documented(t, k)
    ensures NameOf(t, k).Some? && DefinitionOf(t, cfg, k).Some?
    ensures Below(t, k, Order(t, t.kids[k], MemberFirst(t, k).Values))
    ensures Emit(t, cfg, k) == MemberHead(t, cfg, k)
                               + EmitVisits(t, cfg, k, Order(t, t.kids[k], MemberFirst(t, k).Values))
                               + [CLOSER, "\n"]
  {
    hide Renders, Emit, EmitVisits, Order, SpecificNodes, Search, MemberHead;
    MemberFacts(t, cfg, k);
    MemberSkips(t, k);
    EmitMemberIs(t, cfg, k);
  }

  /** The text of a member is the lead of its directive, its docstring and the closing piece. */
  lemma MemberLead(scope: Option<string>, name: string, defn: string, body: seq<string>)
    ensures var d := Directive(MemberName(scope, name), defn, Concat(body));
            Concat(["\n", FEATURE] + [NamingPiece(scope, name, defn)] + body + [CLOSER, "\n"])
            == Lead("\n", " ", d.name) + (Doc(d) + (CLOSER + "\n"))
  {
    hide Concat;
    var naming := NamingPiece(scope, name, defn);
    var n := MemberName(scope, name);
    assert naming == (" " + n) + " \"" + "\n" + defn;
    assert ["\n", FEATURE] + [naming] + body + [CLOSER, "\n"]
        == (["\n"] + ([FEATURE] + [naming])) + (body + [CLOSER, "\n"]);
    ConcatAppend(["\n"] + ([FEATURE] + [naming]), body + [CLOSER, "\n"]);
    ConcatAppend(["\n"], [FEATURE] + [naming]);
    ConcatAppend([FEATURE], [naming]);
    ConcatAppend(body, [CLOSER, "\n"]);
    ConcatOne("\n");
    ConcatOne(FEATURE);
    ConcatOne(naming);
    CloserText();
    var d := Directive(n, defn, Concat(body));
    var tail := Concat(body) + (CLOSER + "\n");
    assert Doc(d) + (CLOSER + "\n") == ("\n" + defn) + tail;
    assert ("\n" + (FEATURE + naming)) + tail == Lead("\n", " ", n) + (("\n" + defn) + tail);
  }

  lemma NameIsCode(scope: Option<string>, name: string)
    requires ScopePlain(scope) && Inert(Code, name)
    ensures Inert(Code, MemberName(scope, name))
  {
    hide Inert;
    PlainIsInert(Code, "::");
    if scope.Some? {
      InertConcat(Code, scope.value, "::");
      InertConcat(Code, scope.value + "::", name);
    }
  }

  /** A documented member writes one directive, and what is said of its reading holds of it. */
  lemma MemberText(t: Tree, cfg: Config, c: nat, k: nat)
    requires Renderable(t, cfg) && FillKeepsQuoting(cfg) && DoxygenShape(t, cfg, c)
    requires HasTag(t, k, MemberDef) && MemberShape(t, cfg, c, k) && Documented(t, k)
    requires IsClass(Attr(t, c, "kind")) || IsFile(Attr(t, c, "kind"))
    ensures var d := MemberDirective(t, cfg, k);
            && Concat(Emit(t, cfg, k)) == Lead("\n", " ", d.name) + (Doc(d) + (CLOSER + "\n"))
            && Inert(Code, d.name) && Inert(Literal, d.body)
  {
    hide Emit, EmitVisits, DoxygenShape, Renders, Search, ScopeNodes, SpecificNodes, Order, Siblings, Inert,
      FillKeepsQuoting, Concat, Documented, Doc, Lead;
    MemberPieces(t, cfg, k);
    CompoundOfMember(t, cfg, c, k);
    assert ScopesPlain(t) by { ShapeScopes(t, cfg, c); }
    ScopeIsPlain(t, cfg, k);
    NameIsCode(Scope(t, k), NameOf(t, k).value);
    MemberBodyInert(t, cfg, c, k);
    MemberLead(Scope(t, k), NameOf(t, k).value, DefinitionOf(t, cfg, k).value,
               EmitVisits(t, cfg, k, Order(t, t.kids[k], MemberFirst(t, k).Values)));
  }

  lemma MemberReads(t: Tree, cfg: Config, c: nat, k: nat)
    requires Renderable(t, cfg) && FillKeepsQuoting(cfg) && DoxygenShape(t, cfg, c)
    requires HasTag(t, k, MemberDef) && MemberShape(t, cfg, c, k)
    requires IsClass(Attr(t, c, "kind")) || IsFile(Attr(t, c, "kind"))
    ensures Judged(Emit(t, cfg, k), DirectivesOf(t, cfg, k))
  {
    hide Judged, Emit, DoxygenShape, Renders, DirectivesOf, Siblings, MemberShape, Inert, FillKeepsQuoting,
      MemberDirective, Documented, Doc, Lead, Concat;
    MemberDirectives(t, cfg, k);
    if !Documented(t, k) {
      UndocumentedWritesNothing(t, cfg, k);
      NothingJudged();
    } else {
      MemberText(t, cfg, c, k);
      var d := MemberDirective(t, cfg, k);
      Voids();
      LeadReads("\n", " ", d.name);
      JudgedOne(Emit(t, cfg, k), Lead("\n", " ", d.name), d);
    }
  }

  lemma UndocumentedWritesNothing(t: Tree, cfg: Config, k: nat)
    requires Renderable(t, cfg) && HasTag(t, k, MemberDef) && !Documented(t, k)
    ensures Emit(t, cfg, k) == []
  {
    hide Emit, Documented, Renders;
    EmitMemberIs(t, cfg, k);
  }

  /** `do_memberdef` writes the definition without escaping it. The text of a documented member,
      read as code, ends in code after exactly two literals if and only if the definition fits:
      an unescaped quote in it, or a pending backslash the documentation does not take, breaks
      the file. */
  lemma MemberBalancedIff(t: Tree, cfg: Config, c: nat, k: nat)
    requires Renderable(t, cfg) && FillKeepsQuoting(cfg) && DoxygenShape(t, cfg, c)
    requires HasTag(t, k, MemberDef) && MemberShape(t, cfg, c, k) && Documented(t, k)
    requires IsClass(Attr(t, c, "kind")) || IsFile(Attr(t, c, "kind"))
    ensures var text := Concat(Emit(t, cfg, k));
            After(Code, text) == Code && Opens(Tokens(Code, text)) == 2 <==> Fits(MemberDirective(t, cfg, k))
  {
    hide Emit, DoxygenShape, Renders, Siblings, MemberShape, Inert, FillKeepsQuoting, MemberDirective,
      Documented, Doc, Lead, Concat, After, Tokens, Fits, Opens;
    MemberText(t, cfg, c, k);
    var d := MemberDirective(t, cfg, k);
    Voids();
    LeadReads("\n", " ", d.name);
    DirectiveReads(Lead("\n", " ", d.name), d);
  }

  lemma ShapeScopes(t: Tree, cfg: Config, c: nat)
    requires WellFormed(t) && DoxygenShape(t, cfg, c)
    ensures ScopesPlain(t)
  {
  }

  lemma SectionVisitReads(t: Tree, cfg: Config, c: nat, s: nat, v: Visit)
    requires Renderable(t, cfg) && FillKeepsQuoting(cfg) && DoxygenShape(t, cfg, c)
    requires IsClass(Attr(t, c, "kind")) || IsFile(Attr(t, c, "kind"))
    requires s < v.id < |t.nodes| && v.id < t.end[v.id] <= t.end[s] && SectionVisitShape(t, cfg, c, v)
    ensures VisitJudged(t, cfg, s, v)
  {
    hide Judged, EmitVisits, DoxygenShape, Renders, DirectivesOf, Inert, AllInert, FillKeepsQuoting;
    match v
    case Direct(k) =>
      if Quiet(t, cfg, k) {
        QuietEmits(t, cfg, k);
        NothingJudged();
      } else if HasTag(t, k, MemberDef) {
        MemberReads(t, cfg, c, k);
      } else {
        HeaderFacts(t, cfg, k);
        HeaderReads(FirstData(t, t.kids[k]).value);
        HeaderDirectives(t, cfg, k);
        JudgedNone(Emit(t, cfg, k));
      }
    case Aside(d) =>
      KidsInert(t, cfg, Block, d);
      AsideReads(EmitKids(t, cfg, d));
      JudgedNone(EmitVisit(t, cfg, s, v));
  }

  lemma HeaderDirectives(t: Tree, cfg: Config, k: nat)
    requires Renderable(t, cfg) && HasTag(t, k, Header)
    ensures DirectivesOf(t, cfg, k) == []
  {
    hide Siblings, Gathered, Order, Renders;
  }

  lemma SectionReads(t: Tree, cfg: Config, c: nat, s: nat)
    requires Renderable(t, cfg) && FillKeepsQuoting(cfg) && DoxygenShape(t, cfg, c)
    requires IsClass(Attr(t, c, "kind")) || IsFile(Attr(t, c, "kind"))
    requires HasTag(t, s, SectionDef) && SectionShape(t, cfg, c, s)
    ensures Judged(Emit(t, cfg, s), DirectivesOf(t, cfg, s))
  {
    hide Judged, Emit, EmitVisits, EmitVisit, DoxygenShape, Renders, SectionVisitShape, VisitJudged, Quiet,
      DirectivesOf, Siblings, Gathered, FillKeepsQuoting;
    SectionDirectives(t, cfg, s);
    EmitSectionIs(t, cfg, s);
    EmitKidsIs(t, cfg, s);
    if !Selected(Attr(t, s, "kind")) {
      NothingJudged();
    } else {
      KidsBelow(t, s);
      OrderBelow(t, s, t.kids[s], {});
      var vs := Order(t, t.kids[s], {});
      forall v | v in vs
        ensures VisitJudged(t, cfg, s, v)
      {
        SectionVisitReads(t, cfg, c, s, v);
      }
      VisitsJudged(t, cfg, s, vs);
    }
  }

  lemma {:induction false} OthersEnclosed(t: Tree, cfg: Config, c: nat, names: seq<Tag>)
    requires WellFormed(t) && c < |t.nodes| && ClassShape(t, cfg, c) && CompoundName !in names
    ensures forall v :: v in Named(ClassFirst(t, c), names) ==>
              v.Direct? && v.id < |t.nodes| && AllEnclosed(t, Literal, v.id, t.end[v.id])
    decreases |names|
  {
    if names != [] {
      OthersEnclosed(t, cfg, c, names[1..]);
    }
  }

  /** The compound name opens the docstring of a class, the other named children fill it. */
  lemma ClassHeadIs(t: Tree, cfg: Config, c: nat)
    requires Renderable(t, cfg) && c < |t.nodes| && CompoundName in ClassFirst(t, c)
    ensures Below(t, c, Named(ClassFirst(t, c), CLASS_NAMES)) && Below(t, c, Named(ClassFirst(t, c), OTHER_NAMES))
    ensures EmitVisits(t, cfg, c, Named(ClassFirst(t, c), CLASS_NAMES))
         == ["\n\n", FEATURE + ClassName(t, c) + " \"\n"] + EmitVisits(t, cfg, c, Named(ClassFirst(t, c), OTHER_NAMES))
  {
    hide Emit, EmitVisits, EmitVisit, SpecificNodes, Renders, Siblings, Named, Order;
    ClassFacts(t, c);
    ClassBelow(t, c);
    ClassNames();
    NamedStep(t, cfg, c, ClassFirst(t, c), CLASS_NAMES);
    var k := ClassFirst(t, c)[CompoundName];
    ElementNeeds(t, cfg, k);
    CompoundNameIs(t, cfg, k);
  }

  lemma CompoundNameIs(t: Tree, cfg: Config, k: nat)
    requires Renderable(t, cfg) && HasTag(t, k, CompoundName)
    ensures FirstData(t, t.kids[k]).Some?
    ensures Emit(t, cfg, k) == ["\n\n", FEATURE + FirstData(t, t.kids[k]).value + " \"\n"]
  {
    ElementNeeds(t, cfg, k);
    EmitIs(t, cfg, k, CompoundName);
  }

  lemma ClassLead(name: string, body: seq<string>)
    ensures var d := Directive(name, "", Concat(body));
            Concat(["\n\n", FEATURE + name + " \"\n"] + body + [CLOSER, "\n"])
            == Lead("\n\n", "", name) + (Doc(d) + (CLOSER + "\n"))
  {
    hide Concat;
    var opening := FEATURE + name + " \"\n";
    assert ["\n\n", opening] + body + [CLOSER, "\n"] == (["\n\n"] + [opening]) + (body + [CLOSER, "\n"]);
    ConcatAppend(["\n\n"] + [opening], body + [CLOSER, "\n"]);
    ConcatAppend(["\n\n"], [opening]);
    ConcatAppend(body, [CLOSER, "\n"]);
    ConcatOne("\n\n");
    ConcatOne(opening);
    CloserText();
    var d := Directive(name, "", Concat(body));
    var tail := Concat(body) + (CLOSER + "\n");
    assert Doc(d) + (CLOSER + "\n") == "\n" + tail;
    assert opening == FEATURE + name + (" \"" + "\n");
    assert ("\n\n" + opening) + tail == Lead("\n\n", "", name) + ("\n" + tail);
  }

  lemma ClassNameIsCode(t: Tree, cfg: Config, c: nat)
    requires Renderable(t, cfg) && c < |t.nodes| && ScopesPlain(t) && CompoundName in ClassFirst(t, c)
    ensures Inert(Code, ClassName(t, c))
  {
    hide SpecificNodes, Inert, Renders;
    ClassFacts(t, c);
    CompoundNameIs(t, cfg, ClassFirst(t, c)[CompoundName]);
  }

  lemma ClassBodyInert(t: Tree, cfg: Config, c: nat)
    requires Renderable(t, cfg) && c < |t.nodes| && FillKeepsQuoting(cfg) && ClassShape(t, cfg, c)
    ensures Inert(Literal, ClassDirective(t, cfg, c).body)
  {
    hide Emit, EmitVisits, SpecificNodes, Named, Order, AllEnclosed, Renders, FillKeepsQuoting, AllInert, Inert, Concat;
    OthersBelow(t, c);
    OthersEnclosed(t, cfg, c, OTHER_NAMES);
    var others := Named(ClassFirst(t, c), OTHER_NAMES);
    VisitsInert(t, cfg, Literal, c, others);
    InertReads(Literal, EmitVisits(t, cfg, c, others));
  }

  /** The head of a class: its own directive. */
  lemma ClassHeadReads(t: Tree, cfg: Config, c: nat)
    requires Renderable(t, cfg) && c < |t.nodes| && FillKeepsQuoting(cfg) && DoxygenShape(t, cfg, c) && ClassShape(t, cfg, c)
    ensures Below(t, c, Named(ClassFirst(t, c), CLASS_NAMES))
    ensures Judged(EmitVisits(t, cfg, c, Named(ClassFirst(t, c), CLASS_NAMES)) + [CLOSER, "\n"], [ClassDirective(t, cfg, c)])
  {
    hide Judged, Emit, EmitVisits, EmitVisit, DoxygenShape, SpecificNodes, Named, Order, AllEnclosed, Renders,
      FillKeepsQuoting, Inert, Concat, Doc, Lead;
    ClassHeadIs(t, cfg, c);
    assert ScopesPlain(t) by { ShapeScopes(t, cfg, c); }
    ClassNameIsCode(t, cfg, c);
    ClassBodyInert(t, cfg, c);
    var d := ClassDirective(t, cfg, c);
    var body := EmitVisits(t, cfg, c, Named(ClassFirst(t, c), OTHER_NAMES));
    ClassLead(d.name, body);
    Voids();
    LeadReads("\n\n", "", d.name);
    JudgedOne(["\n\n", FEATURE + d.name + " \"\n"] + body + [CLOSER, "\n"], Lead("\n\n", "", d.name), d);
  }

  lemma ClassRestReads(t: Tree, cfg: Config, c: nat)
    requires Renderable(t, cfg) && c < |t.nodes| && FillKeepsQuoting(cfg) && DoxygenShape(t, cfg, c) && ClassShape(t, cfg, c)
    requires IsClass(Attr(t, c, "kind"))
    ensures Below(t, c, Order(t, t.kids[c], ClassFirst(t, c).Values))
    ensures var vs := Order(t, t.kids[c], ClassFirst(t, c).Values);
            Judged(EmitVisits(t, cfg, c, vs), Gathered(t, cfg, c, vs))
  {
    hide Judged, Emit, EmitVisits, EmitVisit, DoxygenShape, SpecificNodes, DirectivesOf, SectionShape, Quiet,
      FillKeepsQuoting;
    ClassBelow(t, c);
    var vs := Order(t, t.kids[c], ClassFirst(t, c).Values);
    forall v | v in vs
      ensures VisitJudged(t, cfg, c, v)
    {
      PartReads(t, cfg, c, c, v);
    }
    VisitsJudged(t, cfg, c, vs);
  }

  /** A part of a compound: a section, or a node that writes nothing. */
  lemma PartReads(t: Tree, cfg: Config, c: nat, p: nat, v: Visit)
    requires Renderable(t, cfg) && FillKeepsQuoting(cfg) && DoxygenShape(t, cfg, c)
    requires IsClass(Attr(t, c, "kind")) || IsFile(Attr(t, c, "kind"))
    requires v.Direct? && p < v.id < |t.nodes| && v.id < t.end[v.id] <= t.end[p]
    requires Quiet(t, cfg, v.id) || (HasTag(t, v.id, SectionDef) && SectionShape(t, cfg, c, v.id))
    ensures VisitJudged(t, cfg, p, v)
  {
    hide Judged, Emit, DoxygenShape, DirectivesOf, SectionShape, FillKeepsQuoting;
    VisitIsEmit(t, cfg, p, v);
    if Quiet(t, cfg, v.id) {
      QuietEmits(t, cfg, v.id);
      NothingJudged();
    } else {
      SectionReads(t, cfg, c, v.id);
    }
  }

  lemma VisitIsEmit(t: Tree, cfg: Config, p: nat, v: Visit)
    requires Renderable(t, cfg) && v.Direct? && p < v.id < |t.nodes| && v.id < t.end[v.id] <= t.end[p]
    ensures EmitVisit(t, cfg, p, v) == Emit(t, cfg, v.id)
  {
  }

  lemma ClassReads(t: Tree, cfg: Config, c: nat)
    requires Renderable(t, cfg) && FillKeepsQuoting(cfg) && DoxygenShape(t, cfg, c)
    requires IsClass(Attr(t, c, "kind")) && Attr(t, c, "prot") == Some("public")
    ensures Judged(EmitCompound(t, cfg, c), DirectivesOf(t, cfg, c))
  {
    hide Judged, Emit, EmitVisits, EmitVisit, Gathered, ClassShape, SpecificNodes, Order, DirectivesOf, Renders,
      Siblings, Named, FillKeepsQuoting, ClassDirective;
    ClassDirectives(t, cfg, c);
    ClassHeadReads(t, cfg, c);
    ClassRestReads(t, cfg, c);
    var head := EmitVisits(t, cfg, c, Named(ClassFirst(t, c), CLASS_NAMES)) + [CLOSER, "\n"];
    var vs := Order(t, t.kids[c], ClassFirst(t, c).Values);
    JudgedConcat(head, [ClassDirective(t, cfg, c)], EmitVisits(t, cfg, c, vs), Gathered(t, cfg, c, vs));
  }

  lemma FileReads(t: Tree, cfg: Config, c: nat)
    requires Renderable(t, cfg) && FillKeepsQuoting(cfg) && DoxygenShape(t, cfg, c)
    requires !IsClass(Attr(t, c, "kind")) && IsFile(Attr(t, c, "kind"))
    ensures Judged(EmitCompound(t, cfg, c), DirectivesOf(t, cfg, c))
  {
    hide Judged, Emit, EmitVisits, EmitVisit, Gathered, SpecificNodes, Order, SectionShape, VisitJudged, Search,
      DirectivesOf, FillKeepsQuoting;
    FileDirectives(t, cfg, c);
    var ns := Find(t, c, SectionDef);
    SectionsBelow(t, c);
    SectionsTagged(t, c);
    forall v | v in Directs(ns)
      ensures VisitJudged(t, cfg, c, v)
    {
      assert v.id in ns;
      PartReads(t, cfg, c, c, v);
    }
    VisitsJudged(t, cfg, c, Directs(ns));
  }

  lemma CompoundReads(t: Tree, cfg: Config, c: nat)
    requires Renderable(t, cfg) && FillKeepsQuoting(cfg) && DoxygenShape(t, cfg, c)
    ensures Judged(Emit(t, cfg, c), DirectivesOf(t, cfg, c))
  {
    hide Judged, Emit, EmitVisits, EmitVisit, Gathered, SpecificNodes, Order, CompoundShape, DirectivesOf,
      FillKeepsQuoting;
    if IsClass(Attr(t, c, "kind")) {
      ClassDirectives(t, cfg, c);
    } else {
      FileDirectives(t, cfg, c);
    }
    EmitCompoundIs(t, cfg, c);
    if IsClass(Attr(t, c, "kind")) && Attr(t, c, "prot") == Some("public") {
      ClassReads(t, cfg, c);
    } else if !IsClass(Attr(t, c, "kind")) && IsFile(Attr(t, c, "kind")) {
      FileReads(t, cfg, c);
    } else {
      NothingJudged();
    }
  }

  lemma RootReads(t: Tree, cfg: Config, c: nat)
    requires Renderable(t, cfg) && FillKeepsQuoting(cfg) && DoxygenShape(t, cfg, c)
    ensures Judged(Emit(t, cfg, Up(t, c)), DirectivesOf(t, cfg, Up(t, c)))
  {
    hide Judged, Emit, EmitVisits, EmitVisit, Quiet, CompoundShape, DirectivesOf, Renders, Order, Gathered,
      FillKeepsQuoting;
    var root := Up(t, c);
    OtherDirectives(t, cfg, root);
    EmitOtherIs(t, cfg, root);
    EmitKidsIs(t, cfg, root);
    var vs := Order(t, t.kids[root], {});
    forall v | v in vs
      ensures VisitJudged(t, cfg, root, v)
    {
      VisitIsEmit(t, cfg, root, v);
      if v.id == c {
        CompoundReads(t, cfg, c);
      } else {
        QuietEmits(t, cfg, v.id);
        NothingJudged();
      }
    }
    VisitsJudged(t, cfg, root, vs);
  }

  lemma DocumentReads(t: Tree, cfg: Config, c: nat)
    requires Renderable(t, cfg) && FillKeepsQuoting(cfg) && DoxygenShape(t, cfg, c)
    ensures Judged(Emit(t, cfg, 0), DirectivesOf(t, cfg, Up(t, c)))
  {
    hide Emit, Judged, CompoundShape, FillKeepsQuoting;
    EmitDocumentIs(t, cfg, Up(t, c));
    RootReads(t, cfg, c);
  }

  // ---------- The whole text ----------

  /** The first piece, a line comment; the scanner reads the name of the file as code. */
  lemma FileLineReads(basename: string)
    requires Inert(Code, basename)
    ensures Reads(Code, [FileLine(basename)], Code, CodeText("File:" + basename))
  {
    FileMarkReads();
    NewlineIsInert(Code);
    var line := ("\n// File: " + basename) + "\n";
    AfterConcat(Code, "\n// File: ", basename);
    AfterConcat(Code, "\n// File: " + basename, "\n");
    CodeTextConcat("\n// File: ", basename);
    CodeTextConcat("\n// File: " + basename, "\n");
    ReadsOne(Code, line);
    MarkText();
    CodeTextConcat("File:", basename);
  }

  lemma FileMarkReads()
    ensures After(Code, "\n// File: ") == Code && Tokens(Code, "\n// File: ") == CodeText("\n// File: ")
  {
    hide After, Tokens, CodeText;
    var slashes := "/" + "/";
    var mark := (slashes + " ") + "File: ";
    CharReads(Code, '/');
    CharReads(Slash, '/');
    CharReads(Slash, ' ');
    NewlineIsInert(Code);
    PlainIsInert(Code, "File: ");
    AfterConcat(Code, "/", "/");
    AfterConcat(Code, slashes, " ");
    AfterConcat(Code, slashes + " ", "File: ");
    AfterConcat(Code, "\n", mark);
    CodeTextConcat("/", "/");
    CodeTextConcat(slashes, " ");
    CodeTextConcat(slashes + " ", "File: ");
    CodeTextConcat("\n", mark);
    assert "\n// File: " == "\n" + mark;
  }

  lemma MarkText()
    ensures CodeText("\n// File: ") == CodeText("File:") && CodeText("\n") == []
  {
    hide CodeText;
    CodeTextConcat("\n", "// File: ");
    CodeTextConcat("/", "/ File: ");
    CodeTextConcat("/", " File: ");
    CodeTextConcat(" ", "File: ");
    CodeTextConcat("File:", " ");
    CharReads(Code, '\n');
    CharReads(Code, '/');
    CharReads(Code, ' ');
    assert "\n// File: " == "\n" + "// File: " && "// File: " == "/" + "/ File: " && "/ File: " == "/" + " File: ";
    assert " File: " == " " + "File: " && "File: " == "File:" + " ";
  }

  lemma CharReads(m: Mode, c: char)
    ensures After(m, [c]) == Next(m, c) && Tokens(m, [c]) == Read(m, c) && CodeText([c]) == CodeChar(c)
  {
    assert [c][1..] == "";
  }

  /** Everything collected for a document of Doxygen's shape is read back as its directives, each
      with its name in code and its docstring, whole and unchanged, in a literal of its own, and
      nothing else but the name of the file, if and only if every definition fits. Then no
      docstring is left open at the end. */
  lemma GeneratedTextIsBalanced(t: Tree, cfg: Config, c: nat, basename: string)
    requires Renderable(t, cfg) && FillKeepsQuoting(cfg) && DoxygenShape(t, cfg, c)
    requires Inert(Code, basename)
    ensures var text := Concat([FileLine(basename)] + Emit(t, cfg, 0));
            var ds := DirectivesOf(t, cfg, Up(t, c));
            && (Tokens(Code, text) == CodeText("File:" + basename) + WrittenAll(ds) <==> AllFit(ds))
            && (AllFit(ds) ==> After(Code, text) == Code)
  {
    hide Tokens, After, Emit, Renders, CompoundShape, DirectivesOf, Fits, CodeText, FillKeepsQuoting, WrittenAll, Concat;
    FileLineReads(basename);
    DocumentReads(t, cfg, c);
    var line, body, ds := [FileLine(basename)], Emit(t, cfg, 0), DirectivesOf(t, cfg, Up(t, c));
    ConcatAppend(line, body);
    AfterConcat(Code, Concat(line), Concat(body));
    if !AllFit(ds) {
      DivergeAfter(CodeText("File:" + basename), Tokens(Code, Concat(body)), WrittenAll(ds));
    }
  }

  /** If every definition fits, the literals of the text are the word "docstring" and the docstring
      of each directive, in turn: none is left open, none ends early, none swallows another. */
  lemma DocstringsReadBack(t: Tree, cfg: Config, c: nat, basename: string)
    requires Renderable(t, cfg) && FillKeepsQuoting(cfg) && DoxygenShape(t, cfg, c)
    requires Inert(Code, basename) && AllFit(DirectivesOf(t, cfg, Up(t, c)))
    ensures Literals("", Tokens(Code, Concat([FileLine(basename)] + Emit(t, cfg, 0)))) == DocLiterals(DirectivesOf(t, cfg, Up(t, c)))
  {
    hide Tokens, After, Emit, Renders, CompoundShape, DirectivesOf, Fits, CodeText, FillKeepsQuoting, WrittenAll, Concat;
    var ds := DirectivesOf(t, cfg, Up(t, c));
    GeneratedTextIsBalanced(t, cfg, c, basename);
    LiteralsOfCode("", "File:" + basename, WrittenAll(ds));
    DocstringsRecovered("", ds);
  }
}
