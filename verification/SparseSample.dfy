/** A document whose cleaned text keeps more than two newlines in a row. */
module SparseSample {
  import opened Wrappers
  import opened SwigLexer
  import opened Escape
  import opened DoxygenTree
  import opened DoxygenEmitter
  import opened InterfaceBalance
  import opened CleanPieces
  import opened TripleNewlines
  import opened Conversion
  import opened QuotedSample
  import StringParser

  /** A public class Foo with a brief description of two paragraphs, the first of which holds
      nothing but an empty <bold>. */
  function Sparse(): Tree {
    Tree(seq(10, n requires 0 <= n => SparseNode(n)),
         seq(10, n requires 0 <= n => SparseKids(n)),
         seq(10, n requires 0 <= n => SparseParent(n)),
         seq(10, n requires 0 <= n => SparseEnd(n)))
  }

  function SparseNode(n: nat): Node {
    match n
    case 0 => Document
    case 1 => Element(Other("doxygen"), map[])
    case 2 => Element(CompoundDef, map["kind" := "class", "prot" := "public"])
    case 3 => Element(CompoundName, map[])
    case 4 => Text("Foo")
    case 5 => Element(BriefDescription, map[])
    case 6 | 8 => Element(Para, map[])
    case 7 => Element(Bold, map[])
    case _ => Text("x")
  }

  function SparseKids(n: nat): seq<nat> {
    match n
    case 2 => [3, 5]
    case 5 => [6, 8]
    case 0 | 1 | 3 | 6 | 8 => [n + 1]
    case _ => []
  }

  function SparseParent(n: nat): nat {
    match n
    case 0 => 0
    case 5 => 2
    case 8 => 5
    case _ => n - 1
  }

  function SparseEnd(n: nat): nat {
    match n
    case 3 | 4 => 5
    case 6 | 7 => 8
    case _ => 10
  }

  lemma SparseSiblings(n: nat)
    requires n < 10
    ensures Siblings(Sparse(), n, Sparse().kids[n])
  {
  }

  lemma SparseIntervals()
    ensures var t := Sparse();
            && 10 == |t.nodes| == |t.kids| == |t.parent| == |t.end|
            && (forall n :: 0 <= n < 10 ==> n < t.end[n] <= 10)
            && (forall n :: 0 <= n < 10 ==> t.parent[n] < 10)
            && t.nodes[0].Document? && t.parent[0] == 0
  {
  }

  lemma SparseWellFormed()
    ensures WellFormed(Sparse())
  {
    hide Sparse, Siblings;
    SparseIntervals();
    var t := Sparse();
    forall n | 0 <= n < 10
      ensures Siblings(t, n, t.kids[n])
    {
      SparseSiblings(n);
    }
  }

  /** No headers, descriptions, sections or members. */
  lemma SparseTags(n: nat)
    requires n < 10
    ensures var t := Sparse();
            && !HasTag(t, n, Header) && !HasTag(t, n, Description) && !HasTag(t, n, SectionDef)
  {
  }

  lemma SparseNodeRenders(cfg: Config, n: nat)
    requires n < 10 && WellFormed(Sparse())
    ensures Renders(Sparse(), cfg, n)
  {
    hide WellFormed, HeadersFit, Search, SpecificNodes;
    var t := Sparse();
    SparseSiblings(n);
    forall k | k in t.kids[n]
      ensures !HasTag(t, k, Header)
    {
      SparseTags(k);
    }
    OtherHeadersFit(t, t.kids[n]);
    if n == 0 {
      assert FirstElement(t, [1]) == Some(1);
    }
  }

  lemma SparseRenders(cfg: Config)
    ensures Renderable(Sparse(), cfg)
  {
    hide Sparse, WellFormed, Renders, HasTag;
    SparseWellFormed();
    SparseIntervals();
    var t := Sparse();
    forall n | 0 <= n < 10
      ensures Renders(t, cfg, n)
      ensures !HasTag(t, n, Description) && !HasTag(t, n, SectionDef)
    {
      SparseNodeRenders(cfg, n);
      SparseTags(n);
    }
  }

  // ---------- What it writes ----------

  lemma SparseParts()
    ensures var t := Sparse();
            && 10 == |t.nodes| == |t.kids| == |t.parent| == |t.end|
            && t.kids[0] == [1] && t.kids[1] == [2] && t.kids[2] == [3, 5] && t.kids[3] == [4]
            && t.kids[5] == [6, 8] && t.kids[6] == [7] && t.kids[7] == [] && t.kids[8] == [9]
            && t.nodes[1].Element? && t.nodes[1].tag.Other?
            && HasTag(t, 2, CompoundDef) && HasTag(t, 3, CompoundName) && HasTag(t, 5, BriefDescription)
            && HasTag(t, 6, Para) && HasTag(t, 7, Bold) && HasTag(t, 8, Para)
            && t.nodes[4] == Text("Foo") && t.nodes[9] == Text("x")
    ensures Attr(Sparse(), 2, "kind") == Some("class") && Attr(Sparse(), 2, "prot") == Some("public")
  {
  }

  lemma SparseBold(cfg: Config)
    requires Renderable(Sparse(), cfg)
    ensures 10 == |Sparse().nodes|
    ensures Emit(Sparse(), cfg, 7) == [" "]
  {
    hide Sparse, Renderable, Renders, Emit, EmitKids, EmitVisits;
    SparseParts();
    NoKids(Sparse(), cfg, 7);
    EmitIs(Sparse(), cfg, 7, Bold);
  }

  lemma SparseMarkup(cfg: Config)
    requires Renderable(Sparse(), cfg)
    ensures 10 == |Sparse().nodes|
    ensures Emit(Sparse(), cfg, 6) == ["\n", " ", "\n"]
  {
    hide Sparse, Renderable, Renders, Emit, EmitKids, EmitVisits, Escaped;
    var t := Sparse();
    SparseParts();
    SparseBold(cfg);
    SparseTags(7);
    OneKid(t, cfg, 6, 7);
    EmitIs(t, cfg, 6, Para);
  }

  lemma SparsePara(cfg: Config)
    requires Renderable(Sparse(), cfg) && cfg.fill("x") == "x"
    ensures 10 == |Sparse().nodes|
    ensures Emit(Sparse(), cfg, 8) == ["\n", "x", "\n"]
  {
    hide Sparse, Renderable, Renders, Emit, EmitKids, EmitVisits, Escaped;
    var t := Sparse();
    SparseParts();
    SparseText(cfg);
    SparseTags(9);
    OneKid(t, cfg, 8, 9);
    EmitIs(t, cfg, 8, Para);
  }

  lemma SparseBrief(cfg: Config)
    requires Renderable(Sparse(), cfg) && cfg.fill("x") == "x"
    ensures 10 == |Sparse().nodes|
    ensures Emit(Sparse(), cfg, 5) == ["\n", " ", "\n", "\n", "x", "\n", "\n"]
  {
    hide Sparse, Renderable, Renders, Emit, EmitKids, EmitVisits, Escaped;
    var t := Sparse();
    SparseParts();
    SparseMarkup(cfg);
    SparsePara(cfg);
    SparseTags(6);
    SparseTags(8);
    TwoKids(t, cfg, 5, 6, 8);
    EmitIs(t, cfg, 5, BriefDescription);
  }

  lemma SparseText(cfg: Config)
    requires Renderable(Sparse(), cfg) && cfg.fill("x") == "x"
    ensures 10 == |Sparse().nodes|
    ensures Emit(Sparse(), cfg, 9) == ["x"]
  {
    hide Sparse, Renderable, Renders, Emit, Escaped;
    SparseParts();
    EmitTextIs(Sparse(), cfg, 9, "x");
    EscapedIsItself("x");
    assert !IsSpace("x"[0]);
  }

  lemma SparseFirst()
    ensures ClassFirst(Sparse(), 2) == map[CompoundName := 3, BriefDescription := 5]
    ensures ClassFirst(Sparse(), 2).Values == {3, 5}
  {
    hide Sparse;
    SparseParts();
    var t := Sparse();
    assert [3, 5][..1] == [3] && [3][..0] == [];
    assert SpecificNodes(t, [3], CLASS_NAME_SET) == map[CompoundName := 3];
    var first := map[CompoundName := 3, BriefDescription := 5];
    assert first[CompoundName] == 3 && first[BriefDescription] == 5;
  }

  lemma SparseVisits()
    ensures Named(ClassFirst(Sparse(), 2), OTHER_NAMES) == [Direct(5)]
    ensures Order(Sparse(), [3, 5], {3, 5}) == []
  {
    hide Sparse, ClassFirst;
    SparseParts();
    SparseFirst();
    var first := ClassFirst(Sparse(), 2);
    assert OTHER_NAMES[1..] == [DetailedDescription, Includes] && [DetailedDescription, Includes][1..] == [Includes];
    assert [Includes][1..] == [];
    assert Named(first, []) == [] && Named(first, [Includes]) == [] && Named(first, [DetailedDescription, Includes]) == [];
    assert [3, 5][1..] == [5] && [5][1..] == [];
    assert Order(Sparse(), [], {3, 5}) == [] && Order(Sparse(), [5], {3, 5}) == [];
  }

  lemma SparseRoot(cfg: Config)
    requires Renderable(Sparse(), cfg)
    ensures 10 == |Sparse().nodes|
    ensures Emit(Sparse(), cfg, 0) == Emit(Sparse(), cfg, 2)
  {
    hide Sparse, Renderable, Renders, Emit, EmitKids, EmitVisits;
    var t := Sparse();
    SparseParts();
    assert FirstElement(t, [1]) == Some(1);
    EmitDocumentIs(t, cfg, 1);
    EmitOtherIs(t, cfg, 1);
    SparseTags(2);
    OneKid(t, cfg, 1, 2);
  }

  lemma SparseOthers(cfg: Config)
    requires Renderable(Sparse(), cfg)
    ensures 10 == |Sparse().nodes| && Below(Sparse(), 2, [Direct(5)])
    ensures EmitVisits(Sparse(), cfg, 2, [Direct(5)]) == Emit(Sparse(), cfg, 5)
  {
    hide Sparse, Renderable, Renders, Emit, EmitVisits, ClassFirst, Order, Named;
    var t := Sparse();
    SparseParts();
    SparseVisits();
    SparseWellFormed();
    OthersBelow(t, 2);
    assert [Direct(5)] + [] == [Direct(5)];
    EmitVisitsCons(t, cfg, 2, Direct(5), []);
    NothingLeft(t, cfg, 2);
  }

  lemma SparseClass(cfg: Config)
    requires Renderable(Sparse(), cfg) && cfg.fill("x") == "x"
    ensures Emit(Sparse(), cfg, 0)
         == ["\n\n", FEATURE + "Foo" + " \"\n"] + ["\n", " ", "\n", "\n", "x", "\n", "\n"] + [CLOSER, "\n"]
  {
    hide Sparse, Renderable, Renders, Emit, EmitKids, EmitVisits, ClassFirst, Order, Named, Siblings;
    var t := Sparse();
    SparseParts();
    SparseRoot(cfg);
    SparseFirst();
    SparseVisits();
    EmitCompoundIs(t, cfg, 2);
    ClassHeadIs(t, cfg, 2);
    SparseWellFormed();
    ClassBelow(t, 2);
    NothingLeft(t, cfg, 2);
    SparseName();
    SparseBrief(cfg);
    SparseOthers(cfg);
  }

  lemma SparseName()
    ensures 10 == |Sparse().kids| && ClassName(Sparse(), 2) == "Foo"
  {
    hide Sparse, ClassFirst;
    SparseParts();
    SparseFirst();
  }

  /** What the first pass makes of it, and the text joined in between. */
  lemma SparseShortened(basename: string)
    ensures var pieces := [FileLine(basename)] + (["\n\n", FEATURE + "Foo" + " \"\n"] + ["\n", " ", "\n", "\n", "x", "\n", "\n"] + [CLOSER, "\n"]);
            Concat(Shorten(0, pieces))
            == (FileLine(basename) + "\n\n" + FEATURE + "Foo \"") + BLANK_LINE + " " + BLANK_LINE + ("x\n" + CLOSER)
  {
    hide Shorten, Concat, Repeat, Newlines;
    var f, name := FileLine(basename), FEATURE + "Foo" + " \"\n";
    var brief := ["\n", " ", "\n", "\n", "x", "\n", "\n"] + [CLOSER, "\n"];
    SparseBriefShortened();
    Single(name, brief);
    Single("\n\n", [name] + brief);
    assert |f| > 1;
    Single(f, ["\n\n"] + ([name] + brief));
    assert [f] + (["\n\n", name] + ["\n", " ", "\n", "\n", "x", "\n", "\n"] + [CLOSER, "\n"])
        == [f] + (["\n\n"] + ([name] + brief));
    var tail := " " + ("\n\n" + ("x" + ("\n" + CLOSER)));
    assert name + ("\n" + tail) == FEATURE + "Foo \"" + ("\n\n" + tail);
  }

  lemma SparseBriefShortened()
    ensures Concat(Shorten(0, ["\n", " ", "\n", "\n", "x", "\n", "\n"] + [CLOSER, "\n"]))
         == "\n" + (" " + ("\n\n" + ("x" + ("\n" + CLOSER))))
  {
    hide Shorten, Concat, Repeat;
    var p6 := ["\n", "\n"] + [CLOSER, "\n"];
    var p3 := ["\n", "\n"] + (["x"] + p6);
    ShortenEnd();
    ShortenRun(2, CLOSER, ["\n"]);
    assert p6 == Newlines(2) + ([CLOSER] + ["\n"]);
    ShortenRun(2, "x", p6);
    assert p3 == Newlines(2) + (["x"] + p6);
    ShortenRun(1, " ", p3);
    assert ["\n", " ", "\n", "\n", "x", "\n", "\n"] + [CLOSER, "\n"] == Newlines(1) + ([" "] + p3);
    OneAndTwo();
    assert CLOSER + "" == CLOSER;
  }

  lemma OneAndTwo()
    ensures Repeat('\n', 0) == "" && Repeat('\n', 1) == "\n" && Repeat('\n', 2) == "\n\n"
  {
  }

  /** A piece with no newlines in front. */
  lemma Single(p: string, rest: seq<string>)
    requires p != NEWLINE
    ensures Concat(Shorten(0, [p] + rest)) == p + Concat(Shorten(0, rest))
  {
    hide Shorten, Concat;
    ShortenRun(0, p, rest);
    assert Newlines(0) + ([p] + rest) == [p] + rest;
    OneAndTwo();
    assert "" + (p + Concat(Shorten(0, rest))) == p + Concat(Shorten(0, rest));
  }

  lemma ShortenEnd()
    ensures Concat(Shorten(0, ["\n"])) == ""
  {
    assert Shorten(0, ["\n"]) == Shorten(1, []);
  }

  /** A run of newlines and the piece that ends it, at the front of a list. */
  lemma ShortenRun(k: nat, p: string, rest: seq<string>)
    requires p != NEWLINE
    ensures Concat(Shorten(0, Newlines(k) + ([p] + rest)))
         == Repeat('\n', ShortLength(Run(k, p))) + (p + Concat(Shorten(0, rest)))
  {
    hide Concat;
    ShortenNewlines(0, k, [p] + rest);
    var g := Repeat('\n', ShortLength(Run(k, p)));
    assert Shorten(k, [p] + rest) == Gap(k, p) + [p] + Shorten(0, rest) by {
      assert ([p] + rest)[1..] == rest;
    }
    GapText(k, p);
    ConcatAppend(Gap(k, p) + [p], Shorten(0, rest));
    ConcatAppend(Gap(k, p), [p]);
    ConcatOne(p);
    assert g + p + Concat(Shorten(0, rest)) == g + (p + Concat(Shorten(0, rest)));
  }

  lemma {:induction false} ShortenNewlines(count: nat, k: nat, rest: seq<string>)
    ensures Shorten(count, Newlines(k) + rest) == Shorten(count + k, rest)
    decreases k
  {
    var all := Newlines(k) + rest;
    if k == 0 {
      assert all == rest;
    } else {
      assert all[0] == NEWLINE && all[1..] == Newlines(k - 1) + rest;
      ShortenNewlines(count + 1, k - 1, rest);
    }
  }

  /** `clean_pieces` does not keep to two newlines: for a class whose brief description has a
      paragraph with empty markup in it, the text it returns has three in a row, whatever the file
      is called. */
  lemma EmptyMarkupKeepsThree(cfg: Config, basename: string, wrap: string -> string)
    requires cfg.fill("x") == "x" && wrap(" ") == "" && forall s :: wrap(s) == "" || Tidy(wrap(s))
    ensures Renderable(Sparse(), cfg)
    ensures !NoTriple(Concat(Cleaned(Collected(Sparse(), cfg, basename), wrap)))
  {
    hide Sparse, Renderable, Emit, Shorten, Concat, NoTriple, Tidy, Cleaned, StringParser.SplitFrom;
    SparseRenders(cfg);
    SparseClass(cfg);
    SparseShortened(basename);
    var pieces := Collected(Sparse(), cfg, basename);
    CleanedNewlinesIff(pieces, wrap);
    var a := FileLine(basename) + "\n\n" + FEATURE + "Foo \"";
    var paras := StringParser.Split(Concat(Shorten(0, pieces)), BLANK_LINE);
    var j := CutOut(a, " ", "x\n" + CLOSER);
    BlankIsText();
    assert 1 <= j < |paras| && IsText(paras[j]) && wrap(paras[j]) == "";
  }

  lemma BlankIsText()
    ensures IsText(" ")
  {
  }
}
