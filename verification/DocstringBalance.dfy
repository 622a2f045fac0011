/** What documentation writes: nothing that leaves the docstring, or the comment, around it. */
module DocstringBalance {
  import opened Wrappers
  import opened SwigLexer
  import opened Escape
  import opened DoxygenTree
  import opened DoxygenEmitter

  // ---------- Pieces written inside a literal or a comment ----------

  /** `s` without the blanks at its end. */
  function Stripped(s: string): string {
    if s == "" || !IsSpace(s[|s| - 1]) then s else Stripped(s[..|s| - 1])
  }

  /** All that is assumed of `textwrap.fill`, which changes blanks only and drops those at the end:
      escaped text stays escaped, and text that does not end a comment still does not. */
  ghost predicate FillKeepsQuoting(cfg: Config) {
    && (forall s :: Inert(Literal, cfg.fill(Escaped(s))))
    && (forall s :: Inert(Block, Stripped(s)) ==> Inert(Block, cfg.fill(s)))
  }

  /** The assumption can be met: by a filling that changes nothing, for one. */
  lemma UnfilledKeepsQuoting(includeDefinition: bool)
    ensures FillKeepsQuoting(Config(includeDefinition, s => s))
  {
    hide Inert, Escaped, Stripped;
    forall s
      ensures Inert(Literal, Escaped(s))
      ensures Inert(Block, Stripped(s)) ==> Inert(Block, s)
    {
      EscapedIsCharMap(s);
      EscapedStaysInLiteral(s);
      if Inert(Block, Stripped(s)) {
        BlanksAtEnd(s);
      }
    }
  }

  lemma {:induction false} BlanksAtEnd(s: string)
    requires Inert(Block, Stripped(s))
    ensures Inert(Block, s)
    decreases |s|
  {
    hide Inert;
    if s != "" && IsSpace(s[|s| - 1]) {
      var init, last := s[..|s| - 1], [s[|s| - 1]];
      BlanksAtEnd(init);
      PlainIsInert(Block, last);
      InertConcat(Block, init, last);
      assert s == init + last;
    }
  }

  predicate Enclosing(m: Mode) {
    m.Literal? || m.Block?
  }

  /** What one node may be for its pieces to stay inside a literal (or a comment): no element
      that opens or closes a docstring, no header, and no raw text that would end the region. */
  predicate Enclosed(t: Tree, m: Mode, n: nat)
    requires n < |t.nodes| == |t.kids|
  {
    match t.nodes[n]
    case Document => false
    case Comment(_) => true
    case Text(data) => m.Block? ==> Inert(Block, Stripped(Escaped(data)))
    case Element(tag, _) =>
      match tag
      case CompoundDef | CompoundName | MemberDef | Definition | Header => false
      case ParameterList => Inert(m, ParameterHeading(Attr(t, n, "kind")))
      case ParameterName => ParameterNameData(t, n).Some? ==> Inert(m, ParameterNamePiece(ParameterNameData(t, n).value))
      case _ => true
  }

  ghost predicate AllEnclosed(t: Tree, m: Mode, lo: nat, hi: nat)
    requires |t.nodes| == |t.kids| && hi <= |t.nodes|
  {
    forall n :: lo <= n < hi ==> Enclosed(t, m, n)
  }

  lemma InertConcatPieces(m: Mode, a: seq<string>, b: seq<string>)
    requires AllInert(m, a) && AllInert(m, b)
    ensures AllInert(m, a + b)
  {
  }

  lemma LabelsInert(m: Mode)
    requires Enclosing(m)
    ensures Inert(m, "C++ includes: ") && Inert(m, "WARNING: ") && Inert(m, "See: ")
  {
    hide Inert;
    PlainIsInert(m, "C++ includes: ");
    PlainIsInert(m, "WARNING: ");
    PlainIsInert(m, "See: ");
  }

  /** The fixed texts the handlers write inside a docstring. */
  lemma FixedTextsInert(m: Mode)
    requires Enclosing(m)
    ensures AllInert(m, [" "]) && AllInert(m, ["\n"]) && AllInert(m, ["C++ includes: "])
    ensures AllInert(m, ["\n", "WARNING: "]) && AllInert(m, ["\n", "See: "])
    ensures Inert(m, ":")
  {
    hide Inert;
    LabelsInert(m);
    PlainIsInert(m, " ");
    PlainIsInert(m, "\n");
    PlainIsInert(m, ":");
  }

  lemma TextInert(cfg: Config, m: Mode, data: string)
    requires Enclosing(m) && FillKeepsQuoting(cfg) && (m.Block? ==> Inert(Block, Stripped(Escaped(data))))
    ensures AllInert(m, EmitText(cfg, data))
  {
    hide Inert, Escaped, Stripped;
    assert m.Block? ==> Inert(Block, cfg.fill(Escaped(data)));
  }

  lemma PadInert(m: Mode, pad: nat, body: seq<string>)
    requires Enclosing(m) && AllInert(m, body)
    ensures AllInert(m, Pad(pad, body))
  {
    hide Inert;
    FixedTextsInert(m);
    assert "\n" in ["\n"];
  }

  lemma ParameterListInert(m: Mode, heading: string)
    requires Enclosing(m) && Inert(m, heading)
    ensures AllInert(m, ["\n", "\n", heading, ":", "\n"])
  {
    hide Inert;
    FixedTextsInert(m);
    assert "\n" in ["\n"];
  }

  lemma ParameterNameInert(m: Mode, piece: string)
    requires Enclosing(m) && Inert(m, piece)
    ensures AllInert(m, ["\n", piece])
  {
    hide Inert;
    FixedTextsInert(m);
    assert "\n" in ["\n"];
  }

  /** A subtree of enclosed nodes writes nothing that leaves the literal or comment around it. */
  lemma {:induction false} EmitInert(t: Tree, cfg: Config, m: Mode, n: nat)
    requires Renderable(t, cfg) && FillKeepsQuoting(cfg) && Enclosing(m) && n < |t.nodes|
    requires AllEnclosed(t, m, n, t.end[n])
    ensures AllInert(m, Emit(t, cfg, n))
    decreases Size(t, n), 1, 0
  {
    assert Renders(t, cfg, n) && Enclosed(t, m, n);
    match t.nodes[n]
    case Text(data) => TextInert(cfg, m, data);
    case Element(tag, _) =>
      KidsInert(t, cfg, m, n);
      if !Ignored(cfg, tag) {
        ElementInert(t, cfg, m, n, tag);
      }
    case _ =>
  }

  lemma ElementInert(t: Tree, cfg: Config, m: Mode, n: nat, tag: Tag)
    requires Renderable(t, cfg) && Enclosing(m) && HasTag(t, n, tag)
    requires Enclosed(t, m, n) && AllInert(m, EmitKids(t, cfg, n))
    ensures AllInert(m, EmitElement(t, cfg, n, tag))
  {
    hide Emit, EmitVisit, EmitVisits, Renderable, Inert;
    ElementNeeds(t, cfg, n);
    var body := EmitKids(t, cfg, n);
    FixedTextsInert(m);
    PadInert(m, 1, body);
    if tag == ParameterList {
      ParameterListInert(m, ParameterHeading(Attr(t, n, "kind")));
    } else if tag == ParameterName {
      ParameterNameInert(m, ParameterNamePiece(ParameterNameData(t, n).value));
    }
  }

  lemma ElementNeeds(t: Tree, cfg: Config, n: nat)
    requires Renderable(t, cfg) && n < |t.nodes|
    ensures WellFormed(t) && Renders(t, cfg, n)
  {
  }

  lemma {:induction false} KidsInert(t: Tree, cfg: Config, m: Mode, n: nat)
    requires Renderable(t, cfg) && FillKeepsQuoting(cfg) && Enclosing(m) && n < |t.nodes|
    requires AllEnclosed(t, m, n + 1, t.end[n])
    ensures AllInert(m, EmitKids(t, cfg, n))
    decreases Size(t, n), 0, 1
  {
    KidsBelow(t, n);
    OrderBelow(t, n, t.kids[n], {});
    forall k | k in t.kids[n]
      ensures !HasTag(t, k, Header)
    {
      assert Enclosed(t, m, k);
    }
    OrderDirect(t, t.kids[n], {});
    VisitsInert(t, cfg, m, n, Order(t, t.kids[n], {}));
  }

  /** Without headers a loop visits its children one by one. */
  lemma {:induction false} OrderDirect(t: Tree, ks: seq<nat>, skip: set<nat>)
    requires forall k :: k in ks && k !in skip ==> !HasTag(t, k, Header)
    ensures forall v :: v in Order(t, ks, skip) ==> v.Direct? && v.id in ks && v.id !in skip
    decreases |ks|
  {
    if ks != [] {
      assert ks[0] in ks;
      assert forall k :: k in ks[1..] ==> k in ks;
      OrderDirect(t, ks[1..], skip);
    }
  }

  lemma {:induction false} VisitsInert(t: Tree, cfg: Config, m: Mode, p: nat, vs: seq<Visit>)
    requires Renderable(t, cfg) && FillKeepsQuoting(cfg) && Enclosing(m) && p < |t.nodes| && Below(t, p, vs)
    requires forall v :: v in vs ==> v.Direct? && AllEnclosed(t, m, v.id, t.end[v.id])
    ensures AllInert(m, EmitVisits(t, cfg, p, vs))
    decreases Size(t, p), 0, 0, |vs|
  {
    if vs != [] {
      var v := vs[0];
      assert v in vs && vs == [v] + vs[1..];
      assert forall w :: w in vs[1..] ==> w in vs;
      EmitVisitsCons(t, cfg, p, v, vs[1..]);
      EmitInert(t, cfg, m, v.id);
      VisitsInert(t, cfg, m, p, vs[1..]);
      InertConcatPieces(m, Emit(t, cfg, v.id), EmitVisits(t, cfg, p, vs[1..]));
    }
  }
}
