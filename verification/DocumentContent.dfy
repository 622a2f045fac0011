/** What the documentation in a document says, read off its nodes alone: the texts, labels and
    names that a reader should find, in document order. The pieces written for documentation are
    exactly these, with nothing but newlines between them. */
module DocumentContent {
  import opened Wrappers
  import opened SwigLexer
  import opened Escape
  import opened DoxygenTree
  import opened DoxygenEmitter
  import opened DocstringBalance
  import opened Directives
  import opened InterfaceBalance
  import StringParser

  // ---------- What there is to say ----------

  const UNDOCUMENTED: set<Tag> := {
    InheritanceGraph, Param, ListOfAllMembers, InnerClass, Name, DeclName, IncDepGraph, InvIncDepGraph,
    ProgramListing, Type, References, ReferencedBy, Location, CollaborationGraph, Reimplements,
    ReimplementedBy, DerivedCompoundRef, BaseCompoundRef,
    CompoundDef, CompoundName, MemberDef, Definition, Header}

  predicate Says(t: Tree, n: nat, attr: string, value: string) {
    n < |t.nodes| && t.nodes[n].Element? && attr in t.nodes[n].attrs && t.nodes[n].attrs[attr] == value
  }

  predicate OnlyBlanks(s: string) {
    s != "" && forall c :: c in s ==> c in {' ', '\t', '\n', '\r', '\U{000B}', '\U{000C}'}
  }

  /** Elements with nothing to say, whatever is in them. */
  predicate Silent(t: Tree, cfg: Config, n: nat) {
    && n < |t.nodes| && t.nodes[n].Element?
    && var tag := t.nodes[n].tag;
       || tag in UNDOCUMENTED
       || (tag == ArgsString && !cfg.includeDefinition)
       || (tag == SimpleSect && (Says(t, n, "kind", "date") || Says(t, n, "kind", "rcs") || Says(t, n, "kind", "version")))
       || (tag == Member && !(Says(t, n, "kind", "function")
                              && "refid" in t.nodes[n].attrs && "namespace" <= t.nodes[n].attrs["refid"]))
       || (tag == SectionDef && !Says(t, n, "kind", "public-func") && !Says(t, n, "kind", "func")
           && !Says(t, n, "kind", "user-defined") && !Says(t, n, "kind", ""))
  }

  /** What an element puts in front of its children. */
  function Labels(t: Tree, n: nat): seq<string>
    requires n < |t.nodes| && t.nodes[n].Element?
  {
    var tag := t.nodes[n].tag;
    if tag == Includes then ["C++ includes: "]
    else if tag == ParameterList then
      [if "kind" !in t.nodes[n].attrs then "unknown"
       else if Says(t, n, "kind", "param") then "Parameters"
       else if Says(t, n, "kind", "exception") then "Exceptions"
       else if Says(t, n, "kind", "retval") then "Returns"
       else t.nodes[n].attrs["kind"], ":"]
    else if tag in {Ref, Emphasis, Bold, ComputerOutput, Formula} then [" "]
    else if tag == SimpleSect && Says(t, n, "kind", "warning") then ["WARNING: "]
    else if tag == SimpleSect && Says(t, n, "kind", "see") then ["See: "]
    else []
  }

  /** The name of a parameter: the text first in the node, or first in the element first in it. */
  function NameText(t: Tree, n: nat): string
    requires n < |t.kids| == |t.nodes|
  {
    if t.kids[n] == [] || t.kids[n][0] >= |t.nodes| then ""
    else
      match t.nodes[t.kids[n][0]]
      case Text(data) => data
      case Comment(data) => data
      case _ => if FirstData(t, t.kids[t.kids[n][0]]).Some? then FirstData(t, t.kids[t.kids[n][0]]).value else ""
  }

  /** A colon follows unless the name speaks of an exception. */
  ghost function ParameterText(name: string): string {
    if StringParser.Contains(name, "Exception") then name else name + ": "
  }

  ghost function Content(t: Tree, cfg: Config, n: nat): seq<string>
    requires WellFormed(t) && n < |t.nodes|
    decreases Size(t, n), 1, 0
  {
    KidsBelow(t, n);
    match t.nodes[n]
    case Text(data) => if OnlyBlanks(data) then [] else [cfg.fill(EscapeMap(data))]
    case Element(tag, _) =>
      if Silent(t, cfg, n) then []
      else if tag == ParameterName then [ParameterText(NameText(t, n))]
      else Labels(t, n) + ContentOf(t, cfg, n, t.kids[n])
    case _ => []
  }

  ghost function ContentOf(t: Tree, cfg: Config, p: nat, ks: seq<nat>): seq<string>
    requires WellFormed(t) && p < |t.nodes|
    requires forall k :: k in ks ==> p < k < |t.nodes| && t.end[k] <= t.end[p]
    decreases Size(t, p), 0, |ks|
  {
    if ks == [] then []
    else
      assert ks[0] in ks && forall k :: k in ks[1..] ==> k in ks;
      Content(t, cfg, ks[0]) + ContentOf(t, cfg, p, ks[1..])
  }

  // ---------- Pieces and what they say ----------

  /** The pieces are `content`, once each and in order, with nothing but newlines between. */
  predicate Padded(pieces: seq<string>, content: seq<string>)
    decreases |pieces|
  {
    if pieces == [] then content == []
    else
      || (pieces[0] == "\n" && Padded(pieces[1..], content))
      || (content != [] && pieces[0] == content[0] && Padded(pieces[1..], content[1..]))
  }

  lemma {:induction false} PaddedConcat(a: seq<string>, ca: seq<string>, b: seq<string>, cb: seq<string>)
    requires Padded(a, ca) && Padded(b, cb)
    ensures Padded(a + b, ca + cb)
    decreases |a|
  {
    if a == [] {
      assert a + b == b && ca + cb == cb;
    } else {
      assert (a + b)[0] == a[0] && (a + b)[1..] == a[1..] + b;
      if a[0] == "\n" && Padded(a[1..], ca) {
        PaddedConcat(a[1..], ca, b, cb);
      } else {
        assert (ca + cb)[0] == ca[0] && (ca + cb)[1..] == ca[1..] + cb;
        PaddedConcat(a[1..], ca[1..], b, cb);
      }
    }
  }

  lemma PaddedOne(p: string)
    ensures Padded([p], [p]) && Padded(["\n"], [])
  {
    assert [p][1..] == [] && ["\n"][1..] == [];
  }

  lemma PaddedNone()
    ensures Padded([], [])
  {
  }

  lemma PaddedPad(body: seq<string>, content: seq<string>)
    requires Padded(body, content)
    ensures Padded(Pad(1, body), content) && Padded(["\n"] + Pad(1, body), content)
  {
    hide Padded;
    PaddedOne(" ");
    PaddedConcat(body, content, ["\n"], []);
    assert content + [] == content && [] + content == content;
    PaddedConcat(["\n"], [], Pad(1, body), content);
  }

  /** `text` is `content` with nothing but newlines put in. */
  ghost predicate Spells(text: string, content: seq<string>) {
    exists pieces :: Padded(pieces, content) && Concat(pieces) == text
  }

  // ---------- Documentation says what is in it ----------

  /** None of the elements that name or hold members, compounds or sections' headers. */
  ghost predicate Documentary(t: Tree, lo: nat, hi: nat) {
    hi <= |t.nodes| && forall m :: lo <= m < hi ==>
      && !t.nodes[m].Document?
      && !HasTag(t, m, CompoundDef) && !HasTag(t, m, CompoundName) && !HasTag(t, m, MemberDef)
      && !HasTag(t, m, Definition) && !HasTag(t, m, Header)
  }

  lemma EnclosedIsDocumentary(t: Tree, m: Mode, lo: nat, hi: nat)
    requires |t.nodes| == |t.kids| && hi <= |t.nodes| && AllEnclosed(t, m, lo, hi)
    ensures Documentary(t, lo, hi)
  {
    hide Inert;
    forall n | lo <= n < hi
      ensures !t.nodes[n].Document?
      ensures !HasTag(t, n, CompoundDef) && !HasTag(t, n, CompoundName) && !HasTag(t, n, MemberDef)
      ensures !HasTag(t, n, Definition) && !HasTag(t, n, Header)
    {
      assert Enclosed(t, m, n);
    }
  }

  lemma BlankIff(s: string)
    ensures OnlyBlanks(s) <==> Blank(Escaped(s))
    ensures Escaped(s) == EscapeMap(s)
  {
    EscapedIsCharMap(s);
    if OnlyBlanks(s) {
      forall i | 0 <= i < |s|
        ensures IsSpace(s[i])
      {
        assert s[i] in s;
      }
      BlankEscaped(s);
    } else if s != "" {
      var c :| c in s && !(c in {' ', '\t', '\n', '\r', '\U{000B}', '\U{000C}'});
      SolidEscaped(s, c);
    }
  }

  /** A character that is no blank leaves one in the escaped text. */
  lemma {:induction false} SolidEscaped(s: string, c: char)
    requires c in s && !IsSpace(c)
    ensures exists i :: 0 <= i < |EscapeMap(s)| && !IsSpace(EscapeMap(s)[i])
    decreases |s|
  {
    var e, rest := EscapeChar(s[0]), EscapeMap(s[1..]);
    assert EscapeMap(s) == e + rest;
    if s[0] == c {
      assert !IsSpace(e[0]) && EscapeMap(s)[0] == e[0];
    } else {
      SolidEscaped(s[1..], c);
      var i :| 0 <= i < |rest| && !IsSpace(rest[i]);
      assert (e + rest)[|e| + i] == rest[i];
    }
  }

  lemma {:induction false} ContentWritten(t: Tree, cfg: Config, n: nat)
    requires Renderable(t, cfg) && n < |t.nodes| && Documentary(t, n, t.end[n])
    ensures Padded(Emit(t, cfg, n), Content(t, cfg, n))
    decreases Size(t, n), 1
  {
    hide Padded, EmitVisits, EmitVisit, EmitKids, EmitElement, Renders, Escaped, EscapeMap, OnlyBlanks;
    match t.nodes[n]
    case Text(data) =>
      BlankIff(data);
      PaddedNone();
      PaddedOne(cfg.fill(EscapeMap(data)));
    case Element(tag, _) =>
      KidsContent(t, cfg, n);
      if Ignored(cfg, tag) {
        PaddedNone();
        EmitNothing(t, cfg, n, tag);
      } else {
        EmitIs(t, cfg, n, tag);
        ElementContent(t, cfg, n, tag);
      }
    case Comment(_) =>
      PaddedNone();
  }

  lemma {:induction false} KidsContent(t: Tree, cfg: Config, n: nat)
    requires Renderable(t, cfg) && n < |t.nodes| && Documentary(t, n + 1, t.end[n])
    ensures forall k :: k in t.kids[n] ==> n < k < |t.nodes| && t.end[k] <= t.end[n]
    ensures Padded(EmitKids(t, cfg, n), ContentOf(t, cfg, n, t.kids[n]))
    decreases Size(t, n), 0, |t.kids[n]| + 1
  {
    hide Padded, EmitVisits, EmitVisit, Emit, Renders, Order;
    KidsBelow(t, n);
    EmitKidsIs(t, cfg, n);
    ListContent(t, cfg, n, t.kids[n], {});
  }

  lemma {:induction false} ListContent(t: Tree, cfg: Config, p: nat, ks: seq<nat>, skip: set<nat>)
    requires Renderable(t, cfg) && p < |t.nodes|
    requires forall k :: k in ks ==> p < k < |t.nodes| && t.end[k] <= t.end[p]
    requires forall k :: k in ks && k !in skip ==> Documentary(t, k, t.end[k])
    requires forall k :: k in ks && k in skip ==> Content(t, cfg, k) == []
    requires Below(t, p, Order(t, ks, skip))
    ensures Padded(EmitVisits(t, cfg, p, Order(t, ks, skip)), ContentOf(t, cfg, p, ks))
    decreases Size(t, p), 0, |ks|
  {
    hide Padded, EmitVisits, EmitVisit, Emit, Renders, Content;
    if ks == [] {
      NothingLeft(t, cfg, p);
      PaddedNone();
    } else {
      var k, rest := ks[0], ks[1..];
      assert k in ks && forall x :: x in rest ==> x in ks;
      if k in skip {
        ListContent(t, cfg, p, rest, skip);
        assert [] + ContentOf(t, cfg, p, rest) == ContentOf(t, cfg, p, rest);
      } else {
        assert Documentary(t, k, t.end[k]) && k < t.end[k];
        assert !HasTag(t, k, Header);
        EmitVisitsCons(t, cfg, p, Direct(k), Order(t, rest, skip));
        ListContent(t, cfg, p, rest, skip);
        ContentWritten(t, cfg, k);
        PaddedConcat(Emit(t, cfg, k), Content(t, cfg, k), EmitVisits(t, cfg, p, Order(t, rest, skip)), ContentOf(t, cfg, p, rest));
        VisitIsEmit(t, cfg, p, Direct(k));
      }
    }
  }

  lemma ElementContent(t: Tree, cfg: Config, n: nat, tag: Tag)
    requires Renderable(t, cfg) && HasTag(t, n, tag) && !Ignored(cfg, tag) && Documentary(t, n, t.end[n]) && n < t.end[n]
    requires forall k :: k in t.kids[n] ==> n < k < |t.nodes| && t.end[k] <= t.end[n]
    requires Padded(EmitKids(t, cfg, n), ContentOf(t, cfg, n, t.kids[n]))
    ensures Padded(EmitElement(t, cfg, n, tag), Content(t, cfg, n))
  {
    hide Padded, EmitVisits, EmitVisit, Emit, EmitKids, EmitElement, Renderable, Renders, Content, ContentOf, Silent, Siblings;
    if tag == ParameterName {
      NameContent(t, cfg, n);
    } else {
      ElementNeeds(t, cfg, n);
      ContentIs(t, cfg, n, tag);
      PlaceContent(t, cfg, n, tag);
      PaddedNone();
      if !Silent(t, cfg, n) {
        var body, inner := EmitKids(t, cfg, n), ContentOf(t, cfg, n, t.kids[n]);
        PaddedPad(body, inner);
        PaddedConcat(Front(t, n, tag), Labels(t, n), if tag in BLOCKS then Pad(1, body) else body, inner);
      }
    }
  }

  /** Elements that end in a newline, unless they write nothing. */
  const BLOCKS: set<Tag> := {
    Includes, ParameterList, Para, ParameterDefinition, DetailedDescription, BriefDescription, ArgsString}

  /** The labels of an element, with the newlines around them. */
  function Front(t: Tree, n: nat, tag: Tag): seq<string>
    requires n < |t.nodes| && t.nodes[n].Element?
  {
    if tag == Para then ["\n"]
    else if tag == ParameterList then ["\n", "\n"] + Labels(t, n) + ["\n"]
    else if tag == SimpleSect && Labels(t, n) != [] then ["\n"] + Labels(t, n)
    else Labels(t, n)
  }

  lemma ContentIs(t: Tree, cfg: Config, n: nat, tag: Tag)
    requires WellFormed(t) && HasTag(t, n, tag) && tag != ParameterName
    requires forall k :: k in t.kids[n] ==> n < k < |t.nodes| && t.end[k] <= t.end[n]
    ensures Content(t, cfg, n) == if Silent(t, cfg, n) then [] else Labels(t, n) + ContentOf(t, cfg, n, t.kids[n])
  {
    hide Silent, Labels, ContentOf, Siblings;
  }

  /** Where the labels and the newlines of documentation stand: before the children, and a newline
      after the children of a block. */
  lemma PlaceContent(t: Tree, cfg: Config, n: nat, tag: Tag)
    requires Renderable(t, cfg) && HasTag(t, n, tag) && !Ignored(cfg, tag) && Documentary(t, n, t.end[n]) && n < t.end[n]
    requires tag != ParameterName
    ensures EmitElement(t, cfg, n, tag)
         == if Silent(t, cfg, n) then []
            else Front(t, n, tag) + if tag in BLOCKS then Pad(1, EmitKids(t, cfg, n)) else EmitKids(t, cfg, n)
    ensures Padded(Front(t, n, tag), Labels(t, n))
  {
    hide Padded, EmitVisits, EmitVisit, Emit, EmitKids, EmitElement, Renderable, Renders, Siblings, Pad, Silent, Labels, Front;
    if tag == SimpleSect {
      SectPlaced(t, cfg, n);
    } else if tag == SectionDef || tag == Member {
      FilteredPlaced(t, cfg, n, tag);
    } else if tag in BLOCKS {
      BlockPlaced(t, cfg, n, tag);
    } else {
      PlainPlaced(t, cfg, n, tag);
    }
  }

  lemma SectPlaced(t: Tree, cfg: Config, n: nat)
    requires Renderable(t, cfg) && HasTag(t, n, SimpleSect)
    ensures EmitElement(t, cfg, n, SimpleSect)
         == if Silent(t, cfg, n) then [] else Front(t, n, SimpleSect) + EmitKids(t, cfg, n)
    ensures Padded(Front(t, n, SimpleSect), Labels(t, n))
  {
    hide Padded, EmitVisits, EmitVisit, Emit, EmitKids, Renderable, Siblings;
    ElementNeeds(t, cfg, n);
    PaddedNone();
    WordPadded("WARNING: ");
    WordPadded("See: ");
    assert ["\n"] + ["WARNING: "] == ["\n", "WARNING: "] && ["\n"] + ["See: "] == ["\n", "See: "];
  }

  lemma FilteredPlaced(t: Tree, cfg: Config, n: nat, tag: Tag)
    requires Renderable(t, cfg) && HasTag(t, n, tag) && (tag == SectionDef || tag == Member)
    ensures EmitElement(t, cfg, n, tag) == if Silent(t, cfg, n) then [] else Front(t, n, tag) + EmitKids(t, cfg, n)
    ensures Padded(Front(t, n, tag), Labels(t, n))
  {
    hide Padded, EmitVisits, EmitVisit, Emit, EmitKids, Renderable, Siblings;
    ElementNeeds(t, cfg, n);
    PaddedNone();
  }

  lemma BlockPlaced(t: Tree, cfg: Config, n: nat, tag: Tag)
    requires Renderable(t, cfg) && HasTag(t, n, tag) && !Ignored(cfg, tag) && tag in BLOCKS
    ensures !Silent(t, cfg, n)
    ensures EmitElement(t, cfg, n, tag) == Front(t, n, tag) + Pad(1, EmitKids(t, cfg, n))
    ensures Padded(Front(t, n, tag), Labels(t, n))
  {
    hide Padded, EmitVisits, EmitVisit, Emit, EmitKids, Renderable, Siblings, Pad;
    ElementNeeds(t, cfg, n);
    if tag == ParameterList {
      ListPlaced(t, cfg, n);
    } else {
      PaddedNone();
      PaddedOne("C++ includes: ");
    }
  }

  lemma ListPlaced(t: Tree, cfg: Config, n: nat)
    requires Renderable(t, cfg) && HasTag(t, n, ParameterList)
    ensures EmitElement(t, cfg, n, ParameterList) == Front(t, n, ParameterList) + Pad(1, EmitKids(t, cfg, n))
    ensures Padded(Front(t, n, ParameterList), Labels(t, n))
  {
    hide Padded, EmitVisits, EmitVisit, Emit, EmitKids, Renderable, Renders, Siblings, Pad;
    var heading := Labels(t, n)[0];
    HeadingPadded(heading);
    assert Front(t, n, ParameterList) == ["\n", "\n", heading, ":", "\n"];
    assert heading == ParameterHeading(Attr(t, n, "kind"));
  }

  lemma PlainPlaced(t: Tree, cfg: Config, n: nat, tag: Tag)
    requires Renderable(t, cfg) && HasTag(t, n, tag) && !Ignored(cfg, tag) && Documentary(t, n, t.end[n]) && n < t.end[n]
    requires tag !in BLOCKS && tag != ParameterName && tag != SimpleSect && tag != SectionDef && tag != Member
    ensures !Silent(t, cfg, n)
    ensures EmitElement(t, cfg, n, tag) == Front(t, n, tag) + EmitKids(t, cfg, n)
    ensures Padded(Front(t, n, tag), Labels(t, n))
  {
    hide Padded, EmitVisits, EmitVisit, Emit, EmitKids, Renderable, Siblings, Pad;
    ElementNeeds(t, cfg, n);
    PaddedNone();
    PaddedOne(" ");
    assert !HasTag(t, n, CompoundDef) && !HasTag(t, n, CompoundName) && !HasTag(t, n, MemberDef);
    assert !HasTag(t, n, Definition) && !HasTag(t, n, Header);
  }

  lemma WordPadded(word: string)
    ensures Padded(["\n", word], [word])
  {
    PaddedOne(word);
    assert ["\n", word][1..] == [word];
  }

  lemma HeadingPadded(heading: string)
    ensures Padded(["\n", "\n", heading, ":", "\n"], [heading, ":"])
  {
    hide Padded;
    PaddedOne(heading);
    PaddedOne(":");
    PaddedConcat(["\n"], [], ["\n"], []);
    PaddedConcat(["\n"] + ["\n"], [] + [], [heading], [heading]);
    PaddedConcat(["\n"] + ["\n"] + [heading], [] + [] + [heading], [":"], [":"]);
    PaddedConcat(["\n"] + ["\n"] + [heading] + [":"], [] + [] + [heading] + [":"], ["\n"], []);
    assert ["\n"] + ["\n"] + [heading] + [":"] + ["\n"] == ["\n", "\n", heading, ":", "\n"];
    assert [] + [] + [heading] + [":"] + [] == [heading, ":"];
  }

  lemma NameContent(t: Tree, cfg: Config, n: nat)
    requires Renderable(t, cfg) && HasTag(t, n, ParameterName)
    ensures Padded(EmitElement(t, cfg, n, ParameterName), Content(t, cfg, n))
  {
    hide Padded, Renderable, Emit, EmitVisits, EmitKids, ContentOf;
    ElementNeeds(t, cfg, n);
    KidsBelow(t, n);
    var data := ParameterNameData(t, n).value;
    assert NameText(t, n) == data;
    WordPadded(ParameterText(data));
  }

  /** A description that a header takes aside is written whole, between comment marks. */
  lemma AsideSays(t: Tree, cfg: Config, p: nat, d: nat) returns (body: seq<string>)
    requires Renderable(t, cfg) && p < d < |t.nodes| && d < t.end[d] <= t.end[p] && Documentary(t, d + 1, t.end[d])
    ensures forall k :: k in t.kids[d] ==> d < k < |t.nodes| && t.end[k] <= t.end[d]
    ensures EmitVisit(t, cfg, p, Aside(d)) == ["\n/*"] + body + ["\n*/\n"]
    ensures Padded(body, ContentOf(t, cfg, d, t.kids[d]))
  {
    hide Padded, EmitVisits, Emit, Renders, ContentOf;
    KidsContent(t, cfg, d);
    body := EmitKids(t, cfg, d);
  }

  /** Padding by 1 adds a newline to what is not empty, padding by 2 one on both sides of anything. */
  lemma PadSays(body: seq<string>)
    ensures Pad(0, body) == body && Pad(2, body) == ["\n"] + body + ["\n"]
    ensures body == [] ==> Pad(1, body) == []
    ensures body != [] ==> Pad(1, body) == body + ["\n"]
  {
  }

  /** A definition outside a member, as its handler writes it, leaves a docstring open. */
  lemma DefinitionLeavesOpen(t: Tree, cfg: Config, n: nat)
    requires Renderable(t, cfg) && HasTag(t, n, Definition)
    requires Inert(Code, TextIn(t, n)) && Inert(Literal, TextIn(t, n))
    ensures Reads(Code, Emit(t, cfg, n), Literal, CodeText(TextIn(t, n)) + [Open] + LiteralText("\n" + TextIn(t, n)))
  {
    hide Tokens, After, CodeText, LiteralText, Renderable, Emit;
    ElementNeeds(t, cfg, n);
    EmitIs(t, cfg, n, Definition);
    var data := TextIn(t, n);
    QuoteReads();
    BlankReads();
    NewlineIsInert(Literal);
    InertConcat(Literal, "\n", data);
    assert data + " \"\n" + data == ((data + " ") + "\"") + ("\n" + data);
    AfterConcat(Code, data, " ");
    AfterConcat(Code, data + " ", "\"");
    AfterConcat(Code, (data + " ") + "\"", "\n" + data);
    ReadsOne(Code, data + " \"\n" + data);
  }

  /** The text first in a node. */
  function TextIn(t: Tree, n: nat): string {
    if n < |t.kids| && FirstData(t, t.kids[n]).Some? then FirstData(t, t.kids[n]).value else ""
  }

  // ---------- The docstrings say what is documented ----------

  /** The last of `ks` with the tag. */
  function LastOf(t: Tree, ks: seq<nat>, tag: Tag): Option<nat> {
    if ks == [] then None
    else if HasTag(t, ks[|ks| - 1], tag) then Some(ks[|ks| - 1])
    else LastOf(t, ks[..|ks| - 1], tag)
  }

  lemma {:induction false} LastIsSpecific(t: Tree, ks: seq<nat>, names: set<Tag>, tag: Tag)
    requires tag in names
    ensures tag in SpecificNodes(t, ks, names) <==> LastOf(t, ks, tag).Some?
    ensures tag in SpecificNodes(t, ks, names) ==> LastOf(t, ks, tag) == Some(SpecificNodes(t, ks, names)[tag])
    decreases |ks|
  {
    if ks != [] {
      LastIsSpecific(t, ks[..|ks| - 1], names, tag);
    }
  }

  ghost function LastContent(t: Tree, cfg: Config, n: nat, tag: Tag): seq<string>
    requires WellFormed(t)
  {
    if n < |t.nodes| && LastOf(t, t.kids[n], tag).Some? && LastOf(t, t.kids[n], tag).value < |t.nodes|
    then Content(t, cfg, LastOf(t, t.kids[n], tag).value) else []
  }

  /** The text of a member's docstring after its definition is the content of its children, each in
      its place: all of them, name and definition having nothing more to say. */
  lemma MemberBodySays(t: Tree, cfg: Config, c: nat, k: nat)
    requires Renderable(t, cfg) && HasTag(t, k, MemberDef) && Documented(t, k) && MemberShape(t, cfg, c, k)
    ensures forall m :: m in t.kids[k] ==> k < m < |t.nodes| && t.end[m] <= t.end[k]
    ensures Spells(MemberDirective(t, cfg, k).body, ContentOf(t, cfg, k, t.kids[k]))
  {
    hide Padded, EmitVisits, Emit, Renders, Content, SpecificNodes, Documented, Inert, AllEnclosed, Order, ContentOf;
    KidsBelow(t, k);
    MemberBelow(t, k);
    SpecificInList(t, t.kids[k], MEMBER_NAMES);
    var skip := MemberFirst(t, k).Values;
    forall m | m in t.kids[k]
      ensures m in skip ==> Content(t, cfg, m) == []
      ensures m !in skip ==> Documentary(t, m, t.end[m])
    {
      if m in skip {
        NamesSayNothing(t, cfg, m);
      } else {
        EnclosedIsDocumentary(t, Literal, m, t.end[m]);
      }
    }
    ListContent(t, cfg, k, t.kids[k], skip);
  }

  lemma NamesSayNothing(t: Tree, cfg: Config, m: nat)
    requires WellFormed(t) && (HasTag(t, m, Definition) || HasTag(t, m, Name))
    ensures Content(t, cfg, m) == []
  {
  }

  /** The docstring of a class is the content of its last brief description, its last detailed
      description and its last include, in this order. */
  lemma ClassBodySays(t: Tree, cfg: Config, c: nat)
    requires Renderable(t, cfg) && c < |t.nodes| && ClassShape(t, cfg, c)
    ensures Spells(ClassDirective(t, cfg, c).body,
                   LastContent(t, cfg, c, BriefDescription)
                   + (LastContent(t, cfg, c, DetailedDescription) + LastContent(t, cfg, c, Includes)))
  {
    hide Padded, EmitVisits, Emit, Renders, Content, SpecificNodes, Order, ContentOf, Named, LastContent;
    OthersBelow(t, c);
    var first := ClassFirst(t, c);
    var b1, b2 := [DetailedDescription, Includes], [Includes];
    assert OTHER_NAMES[1..] == b1 && b1[1..] == b2 && b2[1..] == [];
    NamedContent(t, cfg, c, OTHER_NAMES);
    NamedContent(t, cfg, c, b1);
    NamedContent(t, cfg, c, b2);
    NoNames(t, cfg, c);
    PaddedConcat(OneNamed(t, cfg, c, Includes), LastContent(t, cfg, c, Includes), [], []);
    assert LastContent(t, cfg, c, Includes) + [] == LastContent(t, cfg, c, Includes);
    PaddedConcat(OneNamed(t, cfg, c, DetailedDescription), LastContent(t, cfg, c, DetailedDescription),
                 EmitVisits(t, cfg, c, Named(first, b2)), LastContent(t, cfg, c, Includes));
    PaddedConcat(OneNamed(t, cfg, c, BriefDescription), LastContent(t, cfg, c, BriefDescription),
                 EmitVisits(t, cfg, c, Named(first, b1)),
                 LastContent(t, cfg, c, DetailedDescription) + LastContent(t, cfg, c, Includes));
  }

  /** What the named child of a class writes. */
  ghost function OneNamed(t: Tree, cfg: Config, c: nat, g: Tag): seq<string>
    requires Renderable(t, cfg) && c < |t.nodes|
  {
    if g in ClassFirst(t, c) && ClassFirst(t, c)[g] < |t.nodes| then Emit(t, cfg, ClassFirst(t, c)[g]) else []
  }

  lemma NoNames(t: Tree, cfg: Config, c: nat)
    requires Renderable(t, cfg) && c < |t.nodes|
    ensures Named(ClassFirst(t, c), []) == [] && EmitVisits(t, cfg, c, []) == [] && Padded([], [])
  {
  }

  lemma NamedContent(t: Tree, cfg: Config, c: nat, names: seq<Tag>)
    requires Renderable(t, cfg) && c < |t.nodes| && ClassShape(t, cfg, c) && names != [] && names[0] in OTHER_NAMES
    requires Below(t, c, Named(ClassFirst(t, c), names))
    ensures Below(t, c, Named(ClassFirst(t, c), names[1..]))
    ensures EmitVisits(t, cfg, c, Named(ClassFirst(t, c), names))
         == OneNamed(t, cfg, c, names[0]) + EmitVisits(t, cfg, c, Named(ClassFirst(t, c), names[1..]))
    ensures Padded(OneNamed(t, cfg, c, names[0]), LastContent(t, cfg, c, names[0]))
  {
    hide Padded, EmitVisits, Emit, Renders, Content, SpecificNodes, Order, Named, AllEnclosed;
    var g, first := names[0], ClassFirst(t, c);
    NamedStep(t, cfg, c, first, names);
    LastIsSpecific(t, t.kids[c], CLASS_NAME_SET, g);
    if g in first {
      EnclosedIsDocumentary(t, Literal, first[g], t.end[first[g]]);
      ContentWritten(t, cfg, first[g]);
    } else {
      PaddedNone();
      assert EmitVisits(t, cfg, c, Named(first, names)) == [] + EmitVisits(t, cfg, c, Named(first, names[1..]));
    }
  }
}
