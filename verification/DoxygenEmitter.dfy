/** What src/doxy2swig.py writes for a node, as a function of the document alone: no list of
    pieces, no list of children that changes under the walk. */
module DoxygenEmitter {
  import opened Wrappers
  import opened Escape
  import opened DoxygenTree

  /** `fill` stands for `textwrap.fill(_, break_long_words=False)`, which is left uninterpreted. */
  datatype Config = Config(includeDefinition: bool, fill: string -> string)

  const FEATURE: string := "%feature(\"docstring\") "

  /** The first piece of every file. */
  function FileLine(basename: string): string {
    "\n// File: " + basename + "\n"
  }

  /** The tags of `self.ignores`. */
  predicate Ignored(cfg: Config, tag: Tag) {
    match tag
    case InheritanceGraph | Param | ListOfAllMembers | InnerClass | Name | DeclName | IncDepGraph
       | InvIncDepGraph | ProgramListing | Type | References | ReferencedBy | Location
       | CollaborationGraph | Reimplements | ReimplementedBy | DerivedCompoundRef
       | BaseCompoundRef => true
    case ArgsString => !cfg.includeDefinition
    case _ => false
  }

  // ---------- Which children are visited, and in which order ----------

  /** A child that is parsed, or the <description> taken out by the <header> before it, which
      is written between comment markers. */
  datatype Visit = Direct(id: nat) | Aside(id: nat)

  /** The <header> at the front of `ks` takes out the <description> two places further on. */
  predicate TakesAside(t: Tree, ks: seq<nat>) {
    |ks| >= 3 && HasTag(t, ks[0], Header) && HasTag(t, ks[2], Description)
  }

  function WithoutAside(ks: seq<nat>): seq<nat>
    requires |ks| >= 3
  {
    [ks[1]] + ks[3..]
  }

  /** The order in which a loop over the children `ks` visits them, leaving out `skip`. */
  function Order(t: Tree, ks: seq<nat>, skip: set<nat>): seq<Visit>
    decreases |ks|
  {
    if ks == [] then []
    else if ks[0] in skip then Order(t, ks[1..], skip)
    else if TakesAside(t, ks) then [Direct(ks[0]), Aside(ks[2])] + Order(t, WithoutAside(ks), skip)
    else [Direct(ks[0])] + Order(t, ks[1..], skip)
  }

  /** `do_header` raises IndexError exactly when one single node follows the header: the length
      test lets that case through, the index does not. */
  predicate HeadersFit(t: Tree, ks: seq<nat>)
    decreases |ks|
  {
    if ks == [] then true
    else if HasTag(t, ks[0], Header) && |ks| == 2 then false
    else if TakesAside(t, ks) then HeadersFit(t, WithoutAside(ks))
    else HeadersFit(t, ks[1..])
  }

  /** `get_specific_nodes`: for each name the last child element that carries it. */
  function SpecificNodes(t: Tree, ks: seq<nat>, names: set<Tag>): map<Tag, nat> {
    if ks == [] then map[]
    else
      var last := ks[|ks| - 1];
      var first := SpecificNodes(t, ks[..|ks| - 1], names);
      if last < |t.nodes| && t.nodes[last].Element? && t.nodes[last].tag in names
      then first[t.nodes[last].tag := last]
      else first
  }

  const CLASS_NAMES: seq<Tag> := [CompoundName, BriefDescription, DetailedDescription, Includes]

  const CLASS_NAME_SET: set<Tag> := {CompoundName, BriefDescription, DetailedDescription, Includes}

  const MEMBER_NAMES: set<Tag> := {Definition, Name}

  /** The named children that exist, in the order of `names`. */
  function Named(first: map<Tag, nat>, names: seq<Tag>): seq<Visit> {
    if names == [] then []
    else (if names[0] in first then [Direct(first[names[0]])] else []) + Named(first, names[1..])
  }

  function Directs(ns: seq<nat>): seq<Visit> {
    seq(|ns|, i requires 0 <= i < |ns| => Direct(ns[i]))
  }

  ghost predicate Below(t: Tree, p: nat, vs: seq<Visit>)
    requires |t.end| == |t.nodes| && p < |t.nodes|
  {
    forall v :: v in vs ==> p < v.id < |t.nodes| && v.id < t.end[v.id] <= t.end[p]
  }

  lemma {:induction false} OrderBelow(t: Tree, p: nat, ks: seq<nat>, skip: set<nat>)
    requires WellFormed(t) && p < |t.nodes|
    requires forall k :: k in ks ==> p < k < |t.nodes| && t.end[k] <= t.end[p]
    ensures Below(t, p, Order(t, ks, skip))
    decreases |ks|
  {
    if ks != [] {
      assert ks[0] in ks;
      if ks[0] !in skip && TakesAside(t, ks) {
        assert ks[2] in ks;
        assert forall k :: k in WithoutAside(ks) ==> k in ks;
        OrderBelow(t, p, WithoutAside(ks), skip);
      } else {
        assert forall k :: k in ks[1..] ==> k in ks;
        OrderBelow(t, p, ks[1..], skip);
      }
    }
  }

  lemma {:induction false} SpecificInList(t: Tree, ks: seq<nat>, names: set<Tag>)
    ensures var first := SpecificNodes(t, ks, names);
            forall g :: g in first ==> g in names && first[g] in ks && HasTag(t, first[g], g)
    decreases |ks|
  {
    if ks != [] {
      SpecificInList(t, ks[..|ks| - 1], names);
    }
  }

  lemma {:induction false} NamedFrom(first: map<Tag, nat>, names: seq<Tag>)
    ensures forall v :: v in Named(first, names) ==> v.Direct? && v.id in first.Values
    decreases |names|
  {
    if names != [] {
      NamedFrom(first, names[1..]);
      assert names[0] in first ==> first[names[0]] in first.Values;
    }
  }

  /** The children of a public class, in the order `do_compounddef` parses them: the named ones
      before the closing piece, the others after it. */
  function ClassFirst(t: Tree, n: nat): map<Tag, nat>
    requires n < |t.kids|
  {
    SpecificNodes(t, t.kids[n], CLASS_NAME_SET)
  }

  lemma ClassBelow(t: Tree, n: nat)
    requires WellFormed(t) && n < |t.nodes|
    ensures Below(t, n, Named(ClassFirst(t, n), CLASS_NAMES))
    ensures Below(t, n, Order(t, t.kids[n], ClassFirst(t, n).Values))
  {
    KidsBelow(t, n);
    SpecificInList(t, t.kids[n], CLASS_NAME_SET);
    NamedFrom(ClassFirst(t, n), CLASS_NAMES);
    OrderBelow(t, n, t.kids[n], ClassFirst(t, n).Values);
  }

  lemma KidsBelow(t: Tree, n: nat)
    requires WellFormed(t) && n < |t.nodes|
    ensures forall k :: k in t.kids[n] ==> n < k < |t.nodes| && t.end[k] <= t.end[n] && t.parent[k] == n
  {
    assert Siblings(t, n, t.kids[n]);
  }

  lemma SectionsBelow(t: Tree, n: nat)
    requires WellFormed(t) && n < |t.nodes|
    ensures Below(t, n, Directs(Find(t, n, SectionDef)))
  {
    KidsBelow(t, n);
    SearchSound(t, t.kids, n, t.kids[n], SectionDef, n + 1);
    forall v | v in Directs(Find(t, n, SectionDef))
      ensures FoundIn(t, v.id, SectionDef, n + 1, t.end[n])
    {
    }
  }

  // ---------- Attributes and names ----------

  function Attr(t: Tree, n: nat, name: string): Option<string>
    requires n < |t.nodes|
  {
    if t.nodes[n].Element? && name in t.nodes[n].attrs then Some(t.nodes[n].attrs[name]) else None
  }

  predicate IsClass(kind: Option<string>) {
    kind == Some("class") || kind == Some("struct")
  }

  predicate IsFile(kind: Option<string>) {
    kind == Some("file") || kind == Some("namespace")
  }

  predicate Selected(kind: Option<string>) {
    kind == Some("public-func") || kind == Some("func") || kind == Some("user-defined") || kind == Some("")
  }

  function ParameterHeading(kind: Option<string>): string {
    match kind
    case None => "unknown"
    case Some(k) =>
      if k == "param" then "Parameters"
      else if k == "exception" then "Exceptions"
      else if k == "retval" then "Returns"
      else k
  }

  /** The name in a <parametername>: its own text, or that of the element around it. */
  function ParameterNameData(t: Tree, n: nat): Option<string>
    requires n < |t.kids|
  {
    if FirstData(t, t.kids[n]).Some? then FirstData(t, t.kids[n])
    else if t.kids[n] != [] && t.kids[n][0] < |t.kids| then FirstData(t, t.kids[t.kids[n][0]])
    else None
  }

  function ParameterNamePiece(data: string): string {
    if StringParser.Find(data, "Exception", 0).Some? then data else data + ": "
  }

  // ---------- Members ----------

  function MemberFirst(t: Tree, n: nat): map<Tag, nat>
    requires n < |t.kids|
  {
    SpecificNodes(t, t.kids[n], MEMBER_NAMES)
  }

  function NameOf(t: Tree, n: nat): Option<string>
    requires n < |t.kids|
  {
    var first := MemberFirst(t, n);
    if Name in first && first[Name] < |t.kids| then FirstData(t, t.kids[first[Name]]) else None
  }

  function DefinitionOf(t: Tree, cfg: Config, n: nat): Option<string>
    requires n < |t.kids|
  {
    var first := MemberFirst(t, n);
    if !cfg.includeDefinition then Some("")
    else if Definition in first && first[Definition] < |t.kids| then FirstData(t, t.kids[first[Definition]])
    else None
  }

  predicate IsOperator(name: string) {
    "operator" <= name
  }

  /** The filters of `do_memberdef`. */
  predicate Documented(t: Tree, n: nat)
    requires n < |t.nodes| == |t.kids|
  {
    && Attr(t, n, "prot") == Some("public")
    && (NameOf(t, n).Some? ==> !IsOperator(NameOf(t, n).value))
    && Definition in MemberFirst(t, n)
    && Attr(t, n, "kind") != Some("variable")
    && Attr(t, n, "kind") != Some("typedef")
  }

  function Up(t: Tree, n: nat): nat
    requires n < |t.parent|
  {
    t.parent[n]
  }

  /** The compounds found from the great-grandparent of `n`; the first decides how members are named. */
  function Compounds(t: Tree, n: nat): seq<nat>
    requires WellFormed(t) && n < |t.nodes|
  {
    Find(t, Up(t, Up(t, Up(t, n))), CompoundDef)
  }

  function CompoundKind(t: Tree, n: nat): Option<string>
    requires WellFormed(t) && n < |t.nodes|
  {
    var found := Compounds(t, n);
    if found != [] && found[0] < |t.nodes| then Attr(t, found[0], "kind") else None
  }

  /** The node that names the scope of a member of a file or namespace, if any. */
  function ScopeNodes(t: Tree, n: nat): seq<nat>
    requires WellFormed(t) && n < |t.nodes|
  {
    var anc := Up(t, Up(t, n));
    if IsClass(CompoundKind(t, n)) then Find(t, anc, CompoundName)
    else
      var inner := Find(t, anc, InnerNamespace);
      if inner == [] && CompoundKind(t, n) == Some("namespace") then Find(t, anc, CompoundName) else inner
  }

  function Scope(t: Tree, n: nat): Option<string>
    requires WellFormed(t) && n < |t.nodes|
  {
    var ns := ScopeNodes(t, n);
    if ns != [] && ns[0] < |t.kids| then FirstData(t, t.kids[ns[0]]) else None
  }

  /** The piece that names the member and opens its docstring. */
  function NamingPiece(scope: Option<string>, name: string, defn: string): string {
    match scope
    case Some(ns) => " " + ns + "::" + name + " \"\n" + defn
    case None => " " + name + " \"\n" + defn
  }

  function MemberNaming(t: Tree, cfg: Config, n: nat): seq<string>
    requires WellFormed(t) && n < |t.nodes|
    requires NameOf(t, n).Some? && DefinitionOf(t, cfg, n).Some?
  {
    if IsFile(CompoundKind(t, n)) || IsClass(CompoundKind(t, n))
    then [NamingPiece(Scope(t, n), NameOf(t, n).value, DefinitionOf(t, cfg, n).value)]
    else []
  }

  function MemberHead(t: Tree, cfg: Config, n: nat): seq<string>
    requires WellFormed(t) && n < |t.nodes|
    requires NameOf(t, n).Some? && DefinitionOf(t, cfg, n).Some?
  {
    ["\n", FEATURE] + MemberNaming(t, cfg, n)
  }

  // ---------- What the source needs of a node not to raise an exception ----------

  ghost predicate MemberRenders(t: Tree, cfg: Config, n: nat)
    requires WellFormed(t) && n < |t.nodes|
  {
    && Attr(t, n, "prot").Some? && Attr(t, n, "id").Some? && Attr(t, n, "kind").Some?
    && n != 0 && Up(t, n) != 0 && Up(t, Up(t, n)) != 0
    && CompoundKind(t, n).Some?
    && (Attr(t, n, "prot") == Some("public") ==> NameOf(t, n).Some?)
    && (Documented(t, n) ==>
          && DefinitionOf(t, cfg, n).Some?
          && (IsFile(CompoundKind(t, n)) && ScopeNodes(t, n) != [] ==> Scope(t, n).Some?)
          && (IsClass(CompoundKind(t, n)) ==> Scope(t, n).Some?))
  }

  ghost predicate Renders(t: Tree, cfg: Config, n: nat)
    requires WellFormed(t) && n < |t.nodes|
  {
    && HeadersFit(t, t.kids[n])
    && match t.nodes[n]
       case Document => DocumentElement(t, n).Some? && !HasTag(t, DocumentElement(t, n).value, Header)
       case Element(tag, attrs) =>
         (match tag
          case CompoundName | Header | Definition => FirstData(t, t.kids[n]).Some?
          case CompoundDef =>
            Attr(t, n, "kind").Some? && (IsClass(Attr(t, n, "kind")) ==> Attr(t, n, "prot").Some?)
          case ParameterName => ParameterNameData(t, n).Some?
          case MemberDef => MemberRenders(t, cfg, n)
          case SectionDef | SimpleSect => Attr(t, n, "kind").Some?
          case Member => Attr(t, n, "kind").Some? && Attr(t, n, "refid").Some?
          case DoxygenIndex => false
          case _ => true)
       case _ => true
  }

  /** A document the converter gets through: no exception is raised at any node, a <section>
      is not nested in another, and a <description> holds only documentation. */
  ghost predicate Renderable(t: Tree, cfg: Config) {
    && WellFormed(t)
    && (forall n :: 0 <= n < |t.nodes| ==> Renders(t, cfg, n))
    && (forall s, m :: 0 <= s < m < |t.nodes| && HasTag(t, s, SectionDef) && m < t.end[s] ==> !HasTag(t, m, SectionDef))
    && NotInDescriptions(t, CompoundDef) && NotInDescriptions(t, CompoundName)
    && NotInDescriptions(t, InnerNamespace) && NotInDescriptions(t, SectionDef)
    && NotInDescriptions(t, MemberDef)
  }

  /** The first child element: `documentElement`. */
  function DocumentElement(t: Tree, n: nat): Option<nat>
    requires n < |t.kids|
  {
    FirstElement(t, t.kids[n])
  }

  function FirstElement(t: Tree, ks: seq<nat>): (r: Option<nat>)
    ensures r.Some? ==> r.value in ks
  {
    if ks == [] then None
    else if ks[0] < |t.nodes| && t.nodes[ks[0]].Element? then Some(ks[0])
    else FirstElement(t, ks[1..])
  }

  // ---------- The emitter ----------

  function EmitText(cfg: Config, data: string): seq<string> {
    var txt := Escaped(data);
    if Blank(txt) then [] else [cfg.fill(txt)]
  }

  /** `generic_parse` around the pieces of the children: `pad` 1 adds a newline after a
      non-empty body, `pad` 2 a newline before and after any body. */
  function Pad(pad: nat, body: seq<string>): seq<string> {
    if pad == 0 then body
    else if pad == 2 then ["\n"] + body + ["\n"]
    else if body == [] then []
    else body + ["\n"]
  }

  ghost function Emit(t: Tree, cfg: Config, n: nat): seq<string>
    requires Renderable(t, cfg) && n < |t.nodes|
    decreases Size(t, n), 2, 0
  {
    assert Renders(t, cfg, n);
    match t.nodes[n]
    case Document => KidsBelow(t, n); EmitVisits(t, cfg, n, [Direct(DocumentElement(t, n).value)])
    case Element(tag, _) => if Ignored(cfg, tag) then [] else EmitElement(t, cfg, n, tag)
    case Text(data) => EmitText(cfg, data)
    case Comment(_) => []
  }

  ghost function EmitKids(t: Tree, cfg: Config, n: nat): seq<string>
    requires Renderable(t, cfg) && n < |t.nodes|
    decreases Size(t, n), 0, 1
  {
    KidsBelow(t, n);
    OrderBelow(t, n, t.kids[n], {});
    EmitVisits(t, cfg, n, Order(t, t.kids[n], {}))
  }

  ghost function EmitElement(t: Tree, cfg: Config, n: nat, tag: Tag): seq<string>
    requires Renderable(t, cfg) && HasTag(t, n, tag)
    decreases Size(t, n), 1, 0
  {
    assert Renders(t, cfg, n);
    match tag
    case Ref | Emphasis | Bold | ComputerOutput | Formula => [" "] + EmitKids(t, cfg, n)
    case CompoundName => ["\n\n", FEATURE + FirstData(t, t.kids[n]).value + " \"\n"]
    case CompoundDef => EmitCompound(t, cfg, n)
    case Includes => ["C++ includes: "] + Pad(1, EmitKids(t, cfg, n))
    case ParameterList =>
      ["\n", "\n", ParameterHeading(Attr(t, n, "kind")), ":", "\n"] + Pad(1, EmitKids(t, cfg, n))
    case Para => ["\n"] + Pad(1, EmitKids(t, cfg, n))
    case ParameterName => ["\n", ParameterNamePiece(ParameterNameData(t, n).value)]
    case ParameterDefinition | DetailedDescription | BriefDescription | ArgsString => Pad(1, EmitKids(t, cfg, n))
    case MemberDef => EmitMember(t, cfg, n)
    case Definition =>
      var data := FirstData(t, t.kids[n]).value;
      [data + " \"\n" + data]
    case SectionDef => if Selected(Attr(t, n, "kind")) then EmitKids(t, cfg, n) else []
    case Header => ["\n/*\n " + FirstData(t, t.kids[n]).value + " \n*/\n"]
    case SimpleSect =>
      var kind := Attr(t, n, "kind").value;
      if kind == "date" || kind == "rcs" || kind == "version" then []
      else if kind == "warning" then ["\n", "WARNING: "] + EmitKids(t, cfg, n)
      else if kind == "see" then ["\n", "See: "] + EmitKids(t, cfg, n)
      else EmitKids(t, cfg, n)
    case Member =>
      if Attr(t, n, "kind") == Some("function") && "namespace" <= Attr(t, n, "refid").value
      then EmitKids(t, cfg, n) else []
    case _ => EmitKids(t, cfg, n)
  }

  ghost function EmitCompound(t: Tree, cfg: Config, n: nat): seq<string>
    requires Renderable(t, cfg) && n < |t.nodes|
    decreases Size(t, n), 0, 1
  {
    var kind := Attr(t, n, "kind");
    if IsClass(kind) then
      if Attr(t, n, "prot") != Some("public") then []
      else
        ClassBelow(t, n);
        EmitVisits(t, cfg, n, Named(ClassFirst(t, n), CLASS_NAMES))
        + [CLOSER, "\n"]
        + EmitVisits(t, cfg, n, Order(t, t.kids[n], ClassFirst(t, n).Values))
    else if IsFile(kind) then
      SectionsBelow(t, n);
      EmitVisits(t, cfg, n, Directs(Find(t, n, SectionDef)))
    else []
  }

  ghost function EmitMember(t: Tree, cfg: Config, n: nat): seq<string>
    requires Renderable(t, cfg) && HasTag(t, n, MemberDef)
    decreases Size(t, n), 0, 1
  {
    assert Renders(t, cfg, n);
    if !Documented(t, n) then []
    else
      KidsBelow(t, n);
      OrderBelow(t, n, t.kids[n], MemberFirst(t, n).Values);
      MemberHead(t, cfg, n) + EmitVisits(t, cfg, n, Order(t, t.kids[n], MemberFirst(t, n).Values)) + [CLOSER, "\n"]
  }

  /** The pieces of the children of `p`, in the order they are visited. */
  ghost function EmitVisits(t: Tree, cfg: Config, p: nat, vs: seq<Visit>): seq<string>
    requires Renderable(t, cfg) && p < |t.nodes| && Below(t, p, vs)
    decreases Size(t, p), 0, 0, |vs|
  {
    if vs == [] then []
    else
      assert vs[0] in vs;
      EmitVisit(t, cfg, p, vs[0]) + EmitVisits(t, cfg, p, vs[1..])
  }

  ghost function EmitVisit(t: Tree, cfg: Config, p: nat, v: Visit): seq<string>
    requires Renderable(t, cfg) && p < v.id < |t.nodes| && v.id < t.end[v.id] <= t.end[p]
    decreases Size(t, p), 0, 0, 0
  {
    match v
    case Direct(k) => Emit(t, cfg, k)
    case Aside(d) => ["\n/*"] + EmitKids(t, cfg, d) + ["\n*/\n"]
  }

  lemma EmitVisitsCons(t: Tree, cfg: Config, p: nat, v: Visit, vs: seq<Visit>)
    requires Renderable(t, cfg) && p < |t.nodes| && Below(t, p, [v] + vs)
    ensures Below(t, p, vs)
    ensures p < v.id < |t.nodes| && v.id < t.end[v.id] <= t.end[p]
    ensures EmitVisits(t, cfg, p, [v] + vs) == EmitVisit(t, cfg, p, v) + EmitVisits(t, cfg, p, vs)
  {
    assert v in [v] + vs;
    assert forall w :: w in vs ==> w in [v] + vs;
    assert ([v] + vs)[1..] == vs;
  }

  lemma EmitTwo(t: Tree, cfg: Config, p: nat, n: nat, d: nat, vs: seq<Visit>)
    requires Renderable(t, cfg) && p < |t.nodes| && Below(t, p, [Direct(n), Aside(d)] + vs)
    ensures Below(t, p, vs)
    ensures p < n < |t.nodes| && p < d < |t.nodes| && n < t.end[n] <= t.end[p] && d < t.end[d] <= t.end[p]
    ensures EmitVisits(t, cfg, p, [Direct(n), Aside(d)] + vs)
         == Emit(t, cfg, n) + EmitVisit(t, cfg, p, Aside(d)) + EmitVisits(t, cfg, p, vs)
  {
    assert [Direct(n), Aside(d)] + vs == [Direct(n)] + ([Aside(d)] + vs);
    EmitVisitsCons(t, cfg, p, Direct(n), [Aside(d)] + vs);
    EmitVisitsCons(t, cfg, p, Aside(d), vs);
  }

  lemma SiblingsAfter(t: Tree, p: nat, ks: seq<nat>, i: nat)
    requires WellFormed(t) && Siblings(t, p, ks) && i < |ks|
    ensures forall k :: k in ks[i..][1..] ==>
              p < k < |t.nodes| && k in ks[i..] && t.end[ks[i]] <= k
  {
    forall k | k in ks[i..][1..]
      ensures p < k < |t.nodes| && k in ks[i..] && t.end[ks[i]] <= k
    {
      var j :| 0 <= j < |ks[i..][1..]| && ks[i..][1..][j] == k;
      assert ks[i + 1 + j] == k == ks[i..][1 + j];
    }
  }

  lemma WithoutAsideMembers(ks: seq<nat>, i: nat, k: nat) returns (j: nat)
    requires i + 2 < |ks| && k in WithoutAside(ks[i..])
    ensures i < j < |ks| && j != i + 2 && ks[j] == k && k in ks[i..]
  {
    var rest := ks[i..];
    if k == rest[1] {
      j := i + 1;
    } else {
      var m :| 0 <= m < |rest[3..]| && rest[3..][m] == k;
      j := i + 3 + m;
      assert rest[3 + m] == k;
    }
  }

  /** Once the <description> two places after `ks[i]` is gone, the loop goes on with the rest,
      whose subtrees avoid it. */
  lemma SiblingsWithout(t: Tree, p: nat, ks: seq<nat>, i: nat)
    requires WellFormed(t) && Siblings(t, p, ks) && i + 2 < |ks|
    ensures (ks[..i + 2] + ks[i + 3..])[i + 1..] == WithoutAside(ks[i..])
    ensures var d := ks[i..][2];
            forall k :: k in WithoutAside(ks[i..]) ==>
              p < k < |t.nodes| && k in ks[i..] && (t.end[k] <= d || t.end[d] <= k)
  {
    hide WithoutAside;
    var d := ks[i + 2];
    forall k | k in WithoutAside(ks[i..])
      ensures p < k < |t.nodes| && k in ks[i..] && (t.end[k] <= d || t.end[d] <= k)
    {
      var j := WithoutAsideMembers(ks, i, k);
    }
    AfterTaking(ks, i);
  }

  lemma AfterTaking(ks: seq<nat>, i: nat)
    requires i + 2 < |ks|
    ensures (ks[..i + 2] + ks[i + 3..])[i + 1..] == WithoutAside(ks[i..])
  {
    assert ks[i..][3..] == ks[i + 3..];
  }

  lemma TakingStep(t: Tree, cfg: Config, p: nat, rest: seq<nat>, skip: set<nat>)
    requires Renderable(t, cfg) && p < |t.nodes| && HeadersFit(t, rest) && Below(t, p, Order(t, rest, skip))
    requires TakesAside(t, rest) && rest[0] !in skip
    ensures p < rest[0] < |t.nodes| && p < rest[2] < |t.nodes| && rest[2] < t.end[rest[2]] <= t.end[p]
    ensures HeadersFit(t, WithoutAside(rest)) && Below(t, p, Order(t, WithoutAside(rest), skip))
    ensures EmitVisits(t, cfg, p, Order(t, rest, skip))
         == Emit(t, cfg, rest[0]) + EmitVisit(t, cfg, p, Aside(rest[2]))
            + EmitVisits(t, cfg, p, Order(t, WithoutAside(rest), skip))
  {
    EmitTwo(t, cfg, p, rest[0], rest[2], Order(t, WithoutAside(rest), skip));
  }

  lemma PlainStep(t: Tree, cfg: Config, p: nat, rest: seq<nat>, skip: set<nat>)
    requires Renderable(t, cfg) && p < |t.nodes| && HeadersFit(t, rest) && Below(t, p, Order(t, rest, skip))
    requires rest != [] && !TakesAside(t, rest) && rest[0] !in skip
    ensures p < rest[0] < |t.nodes|
    ensures HeadersFit(t, rest[1..]) && Below(t, p, Order(t, rest[1..], skip))
    ensures EmitVisits(t, cfg, p, Order(t, rest, skip))
         == Emit(t, cfg, rest[0]) + EmitVisits(t, cfg, p, Order(t, rest[1..], skip))
  {
    EmitVisitsCons(t, cfg, p, Direct(rest[0]), Order(t, rest[1..], skip));
  }

  lemma NamedStep(t: Tree, cfg: Config, p: nat, first: map<Tag, nat>, names: seq<Tag>)
    requires Renderable(t, cfg) && p < |t.nodes| && names != [] && Below(t, p, Named(first, names))
    ensures Below(t, p, Named(first, names[1..]))
    ensures names[0] in first ==>
              && first[names[0]] < |t.nodes|
              && EmitVisits(t, cfg, p, Named(first, names))
                 == Emit(t, cfg, first[names[0]]) + EmitVisits(t, cfg, p, Named(first, names[1..]))
    ensures names[0] !in first ==> Named(first, names) == Named(first, names[1..])
  {
    if names[0] in first {
      EmitVisitsCons(t, cfg, p, Direct(first[names[0]]), Named(first, names[1..]));
    }
  }

  lemma SectionStep(t: Tree, cfg: Config, p: nat, ns: seq<nat>)
    requires Renderable(t, cfg) && p < |t.nodes| && ns != [] && Below(t, p, Directs(ns))
    ensures Below(t, p, Directs(ns[1..]))
    ensures p < ns[0] < |t.nodes| && ns[0] < t.end[ns[0]] <= t.end[p]
    ensures EmitVisits(t, cfg, p, Directs(ns)) == Emit(t, cfg, ns[0]) + EmitVisits(t, cfg, p, Directs(ns[1..]))
  {
    assert Directs(ns) == [Direct(ns[0])] + Directs(ns[1..]);
    EmitVisitsCons(t, cfg, p, Direct(ns[0]), Directs(ns[1..]));
  }

  /** The sections found below a compound have disjoint subtrees. */
  lemma SectionsDisjoint(t: Tree, cfg: Config, p: nat)
    requires Renderable(t, cfg) && p < |t.nodes|
    ensures var ns := Find(t, p, SectionDef);
            && (forall i :: 0 <= i < |ns| ==> p < ns[i] < |t.nodes| && t.end[ns[i]] <= t.end[p])
            && (forall i, j :: 0 <= i < j < |ns| ==> t.end[ns[i]] <= ns[j])
  {
    KidsBelow(t, p);
    SearchSound(t, t.kids, p, t.kids[p], SectionDef, p + 1);
    var ns := Find(t, p, SectionDef);
    forall i | 0 <= i < |ns|
      ensures FoundIn(t, ns[i], SectionDef, p + 1, t.end[p])
    {
      assert ns[i] in ns;
    }
  }

  lemma SectionsTagged(t: Tree, p: nat)
    requires WellFormed(t) && p < |t.nodes|
    ensures forall i :: 0 <= i < |Find(t, p, SectionDef)| ==> HasTag(t, Find(t, p, SectionDef)[i], SectionDef)
  {
    KidsBelow(t, p);
    SearchSound(t, t.kids, p, t.kids[p], SectionDef, p + 1);
    var ns := Find(t, p, SectionDef);
    forall i | 0 <= i < |ns|
      ensures FoundIn(t, ns[i], SectionDef, p + 1, t.end[p])
    {
      assert ns[i] in ns;
    }
  }

  lemma NothingLeft(t: Tree, cfg: Config, p: nat)
    requires Renderable(t, cfg) && p < |t.nodes|
    ensures EmitVisits(t, cfg, p, []) == []
  {
  }

  // ---------- What a handler may rely on at one node ----------

  lemma MemberFacts(t: Tree, cfg: Config, n: nat)
    requires Renderable(t, cfg) && HasTag(t, n, MemberDef)
    ensures MemberRenders(t, cfg, n)
  {
    assert Renders(t, cfg, n);
  }

  lemma CompoundFacts(t: Tree, cfg: Config, n: nat)
    requires Renderable(t, cfg) && HasTag(t, n, MemberDef)
    ensures Compounds(t, n) != [] && Compounds(t, n)[0] < |t.nodes|
    ensures CompoundKind(t, n) == Attr(t, Compounds(t, n)[0], "kind")
  {
    MemberFacts(t, cfg, n);
  }

  lemma NameFacts(t: Tree, cfg: Config, n: nat)
    requires Renderable(t, cfg) && HasTag(t, n, MemberDef) && Attr(t, n, "prot") == Some("public")
    ensures var first := MemberFirst(t, n);
            && Name in first && n < first[Name] < t.end[n]
            && FirstData(t, t.kids[first[Name]]).Some?
            && NameOf(t, n) == FirstData(t, t.kids[first[Name]])
  {
    MemberFacts(t, cfg, n);
    SpecificInList(t, t.kids[n], MEMBER_NAMES);
    KidsBelow(t, n);
  }

  lemma DefinitionFacts(t: Tree, cfg: Config, n: nat)
    requires Renderable(t, cfg) && HasTag(t, n, MemberDef) && Documented(t, n) && cfg.includeDefinition
    ensures var first := MemberFirst(t, n);
            && Definition in first && n < first[Definition] < t.end[n]
            && FirstData(t, t.kids[first[Definition]]).Some?
            && DefinitionOf(t, cfg, n) == FirstData(t, t.kids[first[Definition]])
  {
    MemberFacts(t, cfg, n);
    SpecificInList(t, t.kids[n], MEMBER_NAMES);
    KidsBelow(t, n);
  }

  lemma ScopeFacts(t: Tree, cfg: Config, n: nat)
    requires Renderable(t, cfg) && HasTag(t, n, MemberDef) && Documented(t, n)
    ensures IsClass(CompoundKind(t, n)) ==> ScopeNodes(t, n) != []
    ensures (IsFile(CompoundKind(t, n)) || IsClass(CompoundKind(t, n))) && ScopeNodes(t, n) != [] ==>
              var ns := ScopeNodes(t, n);
              ns[0] < |t.nodes| && FirstData(t, t.kids[ns[0]]).Some? && Scope(t, n) == FirstData(t, t.kids[ns[0]])
    ensures ScopeNodes(t, n) == [] ==> Scope(t, n) == None
  {
    MemberFacts(t, cfg, n);
  }

  lemma HeaderFacts(t: Tree, cfg: Config, n: nat)
    requires Renderable(t, cfg) && HasTag(t, n, Header)
    ensures FirstData(t, t.kids[n]).Some?
    ensures Emit(t, cfg, n) == ["\n/*\n " + FirstData(t, t.kids[n]).value + " \n*/\n"]
  {
    assert Renders(t, cfg, n);
  }

  lemma ClassFacts(t: Tree, n: nat)
    requires WellFormed(t) && n < |t.nodes|
    ensures var first := ClassFirst(t, n);
            && (forall g :: g in first ==> first[g] in t.kids[n] && HasTag(t, first[g], g) && g != Header)
            && (forall k :: k in first.Values ==> !HasTag(t, k, Header) && !HasTag(t, k, Description))
  {
    hide SpecificNodes, Siblings;
    SpecificInList(t, t.kids[n], CLASS_NAME_SET);
    assert Header !in CLASS_NAME_SET && Description !in CLASS_NAME_SET;
  }

  lemma MemberSkips(t: Tree, n: nat)
    requires WellFormed(t) && n < |t.nodes|
    ensures forall k :: k in MemberFirst(t, n).Values ==> !HasTag(t, k, Header) && !HasTag(t, k, Description)
    ensures Below(t, n, Order(t, t.kids[n], MemberFirst(t, n).Values))
  {
    hide SpecificNodes, Siblings, Order;
    SpecificInList(t, t.kids[n], MEMBER_NAMES);
    KidsBelow(t, n);
    OrderBelow(t, n, t.kids[n], MemberFirst(t, n).Values);
  }

  // ---------- The emitter, unfolded once ----------

  lemma EmitIs(t: Tree, cfg: Config, n: nat, tag: Tag)
    requires Renderable(t, cfg) && HasTag(t, n, tag) && !Ignored(cfg, tag)
    ensures Emit(t, cfg, n) == EmitElement(t, cfg, n, tag)
  {
  }

  lemma EmitNothing(t: Tree, cfg: Config, n: nat, tag: Tag)
    requires Renderable(t, cfg) && HasTag(t, n, tag) && Ignored(cfg, tag)
    ensures Emit(t, cfg, n) == []
  {
  }

  lemma EmitKidsIs(t: Tree, cfg: Config, n: nat)
    requires Renderable(t, cfg) && n < |t.nodes|
    ensures Below(t, n, Order(t, t.kids[n], {}))
    ensures EmitKids(t, cfg, n) == EmitVisits(t, cfg, n, Order(t, t.kids[n], {}))
  {
    KidsBelow(t, n);
    OrderBelow(t, n, t.kids[n], {});
  }

  lemma EmitMemberIs(t: Tree, cfg: Config, n: nat)
    requires Renderable(t, cfg) && HasTag(t, n, MemberDef)
    ensures Emit(t, cfg, n) == EmitMember(t, cfg, n)
  {
    EmitIs(t, cfg, n, MemberDef);
  }

  lemma EmitSectionIs(t: Tree, cfg: Config, n: nat)
    requires Renderable(t, cfg) && HasTag(t, n, SectionDef)
    ensures Emit(t, cfg, n) == if Selected(Attr(t, n, "kind")) then EmitKids(t, cfg, n) else []
  {
    EmitIs(t, cfg, n, SectionDef);
  }

  lemma EmitCompoundIs(t: Tree, cfg: Config, n: nat)
    requires Renderable(t, cfg) && HasTag(t, n, CompoundDef)
    ensures Emit(t, cfg, n) == EmitCompound(t, cfg, n)
  {
    EmitIs(t, cfg, n, CompoundDef);
  }

  lemma EmitOtherIs(t: Tree, cfg: Config, n: nat)
    requires Renderable(t, cfg) && n < |t.nodes| && t.nodes[n].Element? && t.nodes[n].tag.Other?
    ensures Emit(t, cfg, n) == EmitKids(t, cfg, n)
  {
    EmitIs(t, cfg, n, t.nodes[n].tag);
  }

  lemma EmitDocumentIs(t: Tree, cfg: Config, root: nat)
    requires Renderable(t, cfg) && DocumentElement(t, 0) == Some(root)
    ensures 0 < root < |t.nodes| && root < t.end[root] <= t.end[0]
    ensures Emit(t, cfg, 0) == Emit(t, cfg, root)
  {
    KidsBelow(t, 0);
    var vs := [Direct(root)];
    assert vs == [Direct(root)] + [];
    EmitVisitsCons(t, cfg, 0, Direct(root), []);
    NothingLeft(t, cfg, 0);
    assert Emit(t, cfg, 0) == EmitVisits(t, cfg, 0, vs);
  }
}
